/** The data loader: where a document of the TAC collections lives on disk
    (derived from its document id alone), which directory and which topic
    file a split is read from, where the parsed collection is cached, and
    how the topics of the topic file become the nested dictionary
    `{topic_id: {"title", "narrative", "docs": {doc_id: text}}}`.
    Reading files, BeautifulSoup and gzip are parameters of the model. */
module DataLoader {
  import opened Text
  import opened Collections

  /** The entries of `config.json` the loader looks up; a missing key raises. */
  type Config = map<string, string>

  /** The three newswire corpora. */
  datatype Corpus = Acquaint | Acquaint2 | EvaltestData

  /** ACQUAINT-2 and evaluation ids contain `_`; the evaluation split always
      reads the evaluation corpus for those; all other ids are ACQUAINT. */
  function CorpusOf(docId: string, split: string): Corpus
  {
    if '_' in docId && split != "evaltest" then Acquaint2
    else if '_' in docId then EvaltestData
    else Acquaint
  }

  /** The `config.json` key holding a corpus' directory. */
  function CorpusKey(c: Corpus): string
  {
    match c
    case Acquaint => "acquaint"
    case Acquaint2 => "acquaint-2"
    case EvaltestData => "evaltest-data"
  }

  /** The file name ending of a corpus file. */
  function Extension(c: Corpus): string
  {
    match c
    case Acquaint => ""
    case Acquaint2 => ".xml"
    case EvaltestData => ".gz"
  }

  /** The path of an ACQUAINT-2 or evaluation document
      `SRC_LANG_YYYYMMDD.NNNN`: `<dir><src_lang>/<src_lang>_<YYYYMM><ext>`.
      `None` when the id has no third `_` field or that field has no period
      (the source indexes past the end of a split there). */
  function NewsPath(docId: string, corpusDir: string, ext: string): Option<string>
  {
    var fields := Split(docId, '_');
    if |fields| < 3 then None
    else
      var parts := Split(fields[2], '.');
      if |parts| < 2 then None
      else
        var publication := Lower(fields[0] + "_" + fields[1]);
        Some(corpusDir + publication + "/" + publication + "_" + PyTake(parts[0], -2) + ext)
  }

  /** What follows `<date>_` in an ACQUAINT file name. */
  function AcquaintSuffix(publication: string): string
  {
    if publication == "NYT" then publication
    else if publication == "XIE" then "XIN_ENG"
    else publication + "_ENG"
  }

  /** The path of an ACQUAINT document `PUBYYYYMMDD.NNNN`:
      `<dir><pub>/<YYYY>/<YYYYMMDD>_<suffix>`. */
  function AcquaintPath(docId: string, corpusDir: string): string
  {
    var publication := PyTake(docId, 3);
    var date := PyDrop(Split(docId, '.')[0], 3);
    var year := PyTake(date, 4);
    corpusDir + Lower(publication) + "/" + year + "/" + date + "_" + AcquaintSuffix(publication)
  }

  /** `get_path_from_docid`; `None` where it raises. */
  function GetPathFromDocId(docId: string, split: string, config: Config): Option<string>
  {
    var corpus := CorpusOf(docId, split);
    var key := CorpusKey(corpus);
    if key !in config then None
    else if corpus == Acquaint then Some(AcquaintPath(docId, config[key]))
    else NewsPath(docId, config[key], Extension(corpus))
  }

  /** `Lower` works character by character, so it distributes over `+`. */
  lemma LowerAppend(a: string, b: string)
    ensures Lower(a + b) == Lower(a) + Lower(b)
  {
    assert forall i :: 0 <= i < |a + b| ==> Lower(a + b)[i] == (Lower(a) + Lower(b))[i];
  }

  /** The path exists exactly when the corpus directory is configured and,
      for an id with `_`, there is a third field holding a period. */
  lemma PathDefined(docId: string, split: string, config: Config)
    ensures var fields := Split(docId, '_');
            GetPathFromDocId(docId, split, config).Some? <==>
              CorpusKey(CorpusOf(docId, split)) in config &&
              ('_' in docId ==> |fields| >= 3 && '.' in fields[2])
  {
    var fields := Split(docId, '_');
    SplitHasSecond(docId, '_');
    if |fields| >= 3 {
      SplitHasSecond(fields[2], '.');
    }
  }

  /** Every path lies in the directory configured for the document's corpus
      and ends as that corpus' files do. */
  lemma PathInCorpus(docId: string, split: string, config: Config)
    requires GetPathFromDocId(docId, split, config).Some?
    ensures var p := GetPathFromDocId(docId, split, config).value;
            var c := CorpusOf(docId, split);
            && CorpusKey(c) in config
            && StartsWith(p, config[CorpusKey(c)])
            && EndsWith(p, Extension(c))
            && (c == Acquaint ==> EndsWith(p, "_" + AcquaintSuffix(PyTake(docId, 3))))
  {
    var c := CorpusOf(docId, split);
    var dir := config[CorpusKey(c)];
    if c == Acquaint {
      AcquaintPathShape(docId, dir);
    } else {
      NewsPathShape(docId, dir, Extension(c));
    }
  }

  /** An ACQUAINT path starts with its directory and ends with the
      publication's suffix. */
  lemma AcquaintPathShape(docId: string, dir: string)
    ensures var p := AcquaintPath(docId, dir);
            StartsWith(p, dir) && EndsWith(p, "") && EndsWith(p, "_" + AcquaintSuffix(PyTake(docId, 3)))
  {
    var publication := PyTake(docId, 3);
    var date := PyDrop(Split(docId, '.')[0], 3);
    var mid := Lower(publication) + "/" + PyTake(date, 4) + "/" + date;
    var tail := "_" + AcquaintSuffix(publication);
    var p := AcquaintPath(docId, dir);
    assert p == dir + (mid + tail);
    ConcatEnds(dir, mid + tail);
    assert p == (dir + mid) + tail;
    ConcatEnds(dir + mid, tail);
    ConcatEnds(p, "");
    assert p + "" == p;
  }

  /** An ACQUAINT-2 or evaluation path starts with its directory and ends
      with the corpus' file ending. */
  lemma NewsPathShape(docId: string, dir: string, ext: string)
    requires NewsPath(docId, dir, ext).Some?
    ensures var p := NewsPath(docId, dir, ext).value;
            StartsWith(p, dir) && EndsWith(p, ext)
  {
    var fields := Split(docId, '_');
    var parts := Split(fields[2], '.');
    var publication := Lower(fields[0] + "_" + fields[1]);
    var rest := publication + "/" + publication + "_" + PyTake(parts[0], -2);
    var p := NewsPath(docId, dir, ext).value;
    assert p == dir + (rest + ext);
    ConcatEnds(dir, rest + ext);
    assert p == (dir + rest) + ext;
    ConcatEnds(dir + rest, ext);
  }

  /** Lower-casing `a_b` lower-cases both sides of the underscore. */
  lemma LowerUnderscore(a: string, b: string)
    ensures Lower(a + "_" + b) == Lower(a) + "_" + Lower(b)
  {
    LowerAppend(a + "_", b);
    LowerAppend(a, "_");
    assert Lower("_") == "_";
  }

  /** An ACQUAINT-2 or evaluation path: the lower-cased source and language
      fields, twice, then the date of the third field less its last two
      characters (the day), so all documents of one month share a file. */
  lemma NewsPathParts(docId: string, split: string, config: Config)
    requires CorpusOf(docId, split) != Acquaint
    requires GetPathFromDocId(docId, split, config).Some?
    ensures var fields := Split(docId, '_');
            |fields| >= 3 &&
            var c := CorpusOf(docId, split);
            var publication := Lower(fields[0]) + "_" + Lower(fields[1]);
            var date := Split(fields[2], '.')[0];
            && GetPathFromDocId(docId, split, config).value ==
                 config[CorpusKey(c)] + publication + "/" + publication + "_" + PyTake(date, |date| - 2) + Extension(c)
            && |date| < |fields[2]| && fields[2][..|date|] == date && fields[2][|date|] == '.'
  {
    var fields := Split(docId, '_');
    var date := Split(fields[2], '.')[0];
    LowerUnderscore(fields[0], fields[1]);
    SplitFirstPrefix(fields[2], '.');
    SplitHasSecond(fields[2], '.');
  }

  /** An ACQUAINT path for an id whose part before the first period has at
      least seven characters: the lower-cased three-letter publication, then
      the four characters after it as the year directory, then that whole
      part less the publication. */
  lemma AcquaintPathParts(docId: string, split: string, config: Config)
    requires CorpusOf(docId, split) == Acquaint && "acquaint" in config
    requires |Split(docId, '.')[0]| >= 7
    ensures var head := Split(docId, '.')[0];
            && |head| <= |docId| && docId[..|head|] == head
            && GetPathFromDocId(docId, split, config).value ==
                 config["acquaint"] + Lower(head[..3]) + "/" + head[3..7] + "/" + head[3..] + "_" + AcquaintSuffix(head[..3])
  {
    var head := Split(docId, '.')[0];
    SplitFirstPrefix(docId, '.');
    assert docId[..3] == head[..3];
    assert head[3..][..4] == head[3..7];
  }

  // ---------------------------------------------------------------------
  // load_data and read_data's cache path
  // ---------------------------------------------------------------------

  /** `os.path.join(a, b)` (POSIX): an absolute `b` replaces `a`, otherwise
      a `/` is put between them unless `a` is empty or already ends in one. */
  function PathJoin(a: string, b: string): (r: string)
    ensures EndsWith(r, b)
  {
    if StartsWith(b, "/") then b
    else if a == "" || EndsWith(a, "/") then a + b
    else a + "/" + b
  }

  /** The year of a split's shared task; `None` for any other split name. */
  function SplitYear(split: string): (y: Option<nat>)
    ensures y.Some? <==> split in {"devtest", "training", "evaltest"}
    ensures y.Some? ==> 2009 <= y.value <= 2011
    ensures split == "training" <==> y == Some(2009)
  {
    if split == "devtest" then Some(2010)
    else if split == "training" then Some(2009)
    else if split == "evaltest" then Some(2011)
    else None
  }

  /** The directory `load_data` lists: the configured directory of the
      data type, then the split, and for training the year. */
  function DataDir(dataType: string, config: Config, split: string): Option<string>
  {
    if dataType !in config then None
    else
      var dirname := PathJoin(config[dataType], split);
      if split == "training" then Some(PathJoin(dirname, "2009")) else Some(dirname)
  }

  /** Only the training split goes one directory further down, into its year. */
  lemma DataDirShape(dataType: string, config: Config, split: string)
    requires dataType in config
    requires !StartsWith(split, "/")
    ensures var d := DataDir(dataType, config, split).value;
            (split == "training" ==> d == PathJoin(config[dataType], split) + "/2009") &&
            (split != "training" ==> d == PathJoin(config[dataType], split))
  {
    if split == "training" {
      var dirname := PathJoin(config[dataType], split);
      assert EndsWith(dirname, "training");
      assert dirname[|dirname| - 1] == 'g';
      assert !StartsWith("2009", "/");
      assert !EndsWith(dirname, "/");
    }
  }

  /** The entries of a directory listing whose names end in `.xml`, in order. */
  function XmlFiles(listing: seq<string>): (r: seq<string>)
    ensures forall f :: f in r <==> f in listing && EndsWith(f, ".xml")
  {
    if |listing| == 0 then []
    else (if EndsWith(listing[0], ".xml") then [listing[0]] else []) + XmlFiles(listing[1..])
  }

  /** The topic file of the split; `None` unless exactly one `.xml` file is
      listed (the source asserts this). */
  function SelectXmlFile(dirname: string, listing: seq<string>): Option<string>
  {
    var files := XmlFiles(listing);
    if |files| != 1 then None else Some(PathJoin(dirname, files[0]))
  }

  /** The topic file is found exactly when one listed name ends in `.xml`,
      and it is that name in the directory. */
  lemma SelectXmlFileSpec(dirname: string, listing: seq<string>)
    ensures SelectXmlFile(dirname, listing).Some? <==> |XmlFiles(listing)| == 1
    ensures SelectXmlFile(dirname, listing).Some? ==>
              exists f :: f in listing && EndsWith(f, ".xml") &&
                SelectXmlFile(dirname, listing).value == PathJoin(dirname, f) &&
                forall g :: g in listing && EndsWith(g, ".xml") ==> g == f
  {
    var files := XmlFiles(listing);
    if |files| == 1 {
      var f := files[0];
      assert f in files;
      forall g | g in listing && EndsWith(g, ".xml") ensures g == f {
        assert g in files;
      }
    }
  }

  /** `os.path.basename`: what follows the last `/`. */
  function Basename(p: string): (b: string)
    ensures '/' !in b && EndsWith(p, b)
    ensures |b| < |p| ==> p[|p| - |b| - 1] == '/'
  {
    if |p| == 0 || p[|p| - 1] == '/' then ""
    else
      var b := Basename(p[..|p| - 1]);
      BasenameStep(p, b);
      b + [p[|p| - 1]]
  }

  /** A suffix of `p` less its last character, extended by that character,
      is a suffix of `p`, preceded by the same character. */
  lemma BasenameStep(p: string, b: string)
    requires |p| > 0 && EndsWith(p[..|p| - 1], b)
    ensures EndsWith(p, b + [p[|p| - 1]])
    ensures |b| + 1 < |p| ==> p[|p| - |b| - 2] == p[..|p| - 1][|p| - 1 - |b| - 1]
  {
    var q := p[..|p| - 1];
    assert p[|p| - |b| - 1..] == q[|q| - |b|..] + [p[|p| - 1]];
  }

  /** `read_data`'s cache file: in the working directory, the topic file's
      name less its last four characters, `.json`, and `.small` in test mode. */
  function CachePath(workingDir: string, xmlFilename: string, test: bool): string
  {
    PathJoin(workingDir, PyTake(Basename(xmlFilename), -4) + ".json") + (if test then ".small" else "")
  }

  /** For a topic file named `<stem>.xml`, the cache is `<stem>.json` (or
      `<stem>.json.small`) in the working directory. */
  lemma CachePathShape(workingDir: string, xmlFilename: string, test: bool)
    requires EndsWith(xmlFilename, ".xml")
    ensures var b := Basename(xmlFilename);
            var stem := b[..|b| - 4];
            && b == stem + ".xml"
            && CachePath(workingDir, xmlFilename, test) ==
                 PathJoin(workingDir, stem + ".json") + (if test then ".small" else "")
  {
    var b := Basename(xmlFilename);
    assert xmlFilename[|xmlFilename| - 1] == 'l';
    assert b[|b| - 4..] == xmlFilename[|xmlFilename| - 4..];
    assert b == b[..|b| - 4] + b[|b| - 4..];
  }

  // ---------------------------------------------------------------------
  // read_data's parser dispatch
  // ---------------------------------------------------------------------

  /** The three document parsers of the loader. */
  datatype Parser = ProcessAcquaint1 | ProcessAcquaint2 | ProcessEvaltest

  /** The parser written for each corpus. */
  function ParserFor(c: Corpus): Parser
  {
    match c
    case Acquaint => ProcessAcquaint1
    case Acquaint2 => ProcessAcquaint2
    case EvaltestData => ProcessEvaltest
  }

  /** The parsers `read_data` calls for one document, in order, as the code
      stands: the second test is a fresh `if`, so its `else` also runs after
      the ACQUAINT-2 parser. */
  function ParsersCalledAsWritten(docId: string, split: string): (r: seq<Parser>)
    ensures 1 <= |r| <= 2
  {
    (if '_' in docId && split != "evaltest" then [ProcessAcquaint2] else []) +
    (if '_' in docId && split == "evaltest" then [ProcessEvaltest] else [ProcessAcquaint1])
  }

  /** The parser whose result is stored, as the code stands: the last one called. */
  function StoredParserAsWritten(docId: string, split: string): Parser
  {
    var calls := ParsersCalledAsWritten(docId, split);
    calls[|calls| - 1]
  }

  /** As written, the stored text comes from the parser of the document's
      corpus exactly when the document is not an ACQUAINT-2 one; an
      ACQUAINT-2 document is parsed twice and stored as read by the
      ACQUAINT parser. */
  lemma StoredParserAsWrittenMismatch(docId: string, split: string)
    ensures StoredParserAsWritten(docId, split) == ParserFor(CorpusOf(docId, split)) <==>
              CorpusOf(docId, split) != Acquaint2
    ensures CorpusOf(docId, split) == Acquaint2 ==>
              ParsersCalledAsWritten(docId, split) == [ProcessAcquaint2, ProcessAcquaint1]
  {
  }

  /** A training-split ACQUAINT-2 id whose text is stored from the wrong parser. */
  lemma StoredParserAsWrittenCounterexample()
    ensures var docId := "AFP_ENG_20050101.0001";
            CorpusOf(docId, "training") == Acquaint2 &&
            StoredParserAsWritten(docId, "training") == ProcessAcquaint1
  {
    var docId := "AFP_ENG_20050101.0001";
    assert docId[3] == '_';
  }

  /** The dispatch as evidently intended (`elif` for the second test): one
      parser per document. */
  function StoredParser(docId: string, split: string): Parser
  {
    if '_' in docId && split != "evaltest" then ProcessAcquaint2
    else if '_' in docId && split == "evaltest" then ProcessEvaltest
    else ProcessAcquaint1
  }

  /** With the intended dispatch every document is read by the parser of the
      corpus its path was derived from. */
  lemma StoredParserMatchesCorpus(docId: string, split: string)
    ensures StoredParser(docId, split) == ParserFor(CorpusOf(docId, split))
    ensures StoredParser(docId, split) == StoredParserAsWritten(docId, split) <==> CorpusOf(docId, split) != Acquaint2
  {
  }

  // ---------------------------------------------------------------------
  // read_data's topic loop
  // ---------------------------------------------------------------------

  /** One topic of the loaded collection; `narrative` is absent for the
      devtest and evaltest splits. */
  datatype TopicData = TopicData(title: string, narrative: Option<string>, docs: ODict<string>)

  /** Reading a document file with a parser: the text it returns, or
      `None` where the parser raises (`process_acquaint1` binds its element
      only when some `<docno>` equals the id, so on a file without one it
      raises). */
  type DocReader = (Parser, string, string) -> Option<string>

  /** The parsers called for a document id on a split, in order:
      `ParsersCalledAsWritten` for the code as it stands, `ParsersCalled`
      for the intended `elif`. */
  type Dispatch = (string, string) -> seq<Parser>

  /** The intended dispatch as a call list: the one parser `StoredParser` names. */
  function ParsersCalled(docId: string, split: string): (r: seq<Parser>)
    ensures r == [ParserFor(CorpusOf(docId, split))]
  {
    StoredParserMatchesCorpus(docId, split);
    [StoredParser(docId, split)]
  }

  /** Running the parsers in order on one file: the last one's text, or
      `None` as soon as one raises (and when none is called, since then no
      document is bound). */
  function RunParsers(read: DocReader, parsers: seq<Parser>, path: string, docId: string): (r: Option<string>)
    ensures r.Some? <==> |parsers| > 0 && forall k :: 0 <= k < |parsers| ==> read(parsers[k], path, docId).Some?
    ensures r.Some? ==> r == read(parsers[|parsers| - 1], path, docId)
    decreases |parsers|
  {
    if |parsers| == 0 then None
    else
      match read(parsers[0], path, docId)
      case None => None
      case Some(text) =>
        if |parsers| == 1 then Some(text)
        else
          var rest := RunParsers(read, parsers[1..], path, docId);
          assert forall k :: 1 <= k < |parsers| ==> parsers[k] == parsers[1..][k - 1];
          rest
  }

  /** The cleanup applied to a title or narrative element: tabs removed, then stripped. */
  function CleanField(raw: string): string
  {
    Strip(RemoveChar(raw, '\t'))
  }

  /** The title (or narrative) list built before the topic loop. */
  function CleanFields(raw: seq<string>): (r: seq<string>)
    ensures |r| == |raw| && forall i :: 0 <= i < |raw| ==> r[i] == CleanField(raw[i])
  {
    seq(|raw|, i requires 0 <= i < |raw| => CleanField(raw[i]))
  }

  /** Only the training split has narratives. */
  predicate HasNarrative(split: string)
  {
    split != "devtest" && split != "evaltest"
  }

  /** One document's text: its path, then the dispatched parsers on it;
      `None` where the path cannot be derived or a parser raises. */
  function DocText(docId: string, split: string, config: Config, read: DocReader, dispatch: Dispatch): Option<string>
  {
    match GetPathFromDocId(docId, split, config)
    case None => None
    case Some(path) => RunParsers(read, dispatch(docId, split), path, docId)
  }

  /** As the code stands, an ACQUAINT-2 document is read by
      `process_acquaint2` and then by `process_acquaint1`: it fails when
      either raises and otherwise keeps the second one's text. Any other
      document is read by its corpus' parser alone. */
  lemma DocTextAsWritten(docId: string, split: string, config: Config, read: DocReader)
    requires GetPathFromDocId(docId, split, config).Some?
    ensures var path := GetPathFromDocId(docId, split, config).value;
            var t := DocText(docId, split, config, read, ParsersCalledAsWritten);
            && (CorpusOf(docId, split) == Acquaint2 ==>
                  && (t.Some? <==> read(ProcessAcquaint2, path, docId).Some? && read(ProcessAcquaint1, path, docId).Some?)
                  && (t.Some? ==> t == read(ProcessAcquaint1, path, docId)))
            && (CorpusOf(docId, split) != Acquaint2 ==> t == read(ParserFor(CorpusOf(docId, split)), path, docId))
  {
    StoredParserAsWrittenMismatch(docId, split);
    var calls := ParsersCalledAsWritten(docId, split);
    if CorpusOf(docId, split) != Acquaint2 {
      assert calls == [ParserFor(CorpusOf(docId, split))];
    }
  }

  /** The documents of one topic, read in order into `docs`, each with the
      parsers `dispatch` calls; `None` where a path cannot be derived or a
      parser raises. */
  function ReadDocs(docIds: seq<string>, split: string, config: Config, read: DocReader, dispatch: Dispatch, docs: ODict<string>): (r: Option<ODict<string>>)
    requires docs.Valid()
    ensures r.Some? ==> r.value.Valid()
  {
    if |docIds| == 0 then Some(docs)
    else
      match DocText(docIds[0], split, config, read, dispatch)
      case None => None
      case Some(document) => ReadDocs(docIds[1..], split, config, read, dispatch, Put(docs, docIds[0], document))
  }

  /** The topics from position `i` on, added to `data`, given the cleaned
      titles and narratives; `None` where the source raises (a topic without
      its title or narrative, a document without a path). A topic id seen
      before is skipped. */
  function ReadTopics(topicIds: seq<string>, titles: seq<string>, narratives: seq<string>, docsOf: string -> seq<string>,
                      split: string, config: Config, read: DocReader, dispatch: Dispatch, i: nat, data: ODict<TopicData>): (r: Option<ODict<TopicData>>)
    requires i <= |topicIds| && data.Valid()
    ensures r.Some? ==> r.value.Valid()
    decreases |topicIds| - i
  {
    if i == |topicIds| then Some(data)
    else
      var t := topicIds[i];
      if t in data.vals then ReadTopics(topicIds, titles, narratives, docsOf, split, config, read, dispatch, i + 1, data)
      else if i >= |titles| || (HasNarrative(split) && i >= |narratives|) then None
      else
        match ReadDocs(docsOf(t), split, config, read, dispatch, EmptyDict())
        case None => None
        case Some(docs) =>
          var narrative := if HasNarrative(split) then Some(RemoveChar(narratives[i], '\t')) else None;
          ReadTopics(topicIds, titles, narratives, docsOf, split, config, read, dispatch, i + 1,
                     Put(data, t, TopicData(titles[i], narrative, docs)))
  }

  /** The documents read for a topic: exactly the ids listed (and those
      already there), each holding the text the dispatched parsers read
      from its own path, so a repeated id changes nothing; `None` exactly
      when some id has no path or a parser raises on it. */
  lemma {:induction false} ReadDocsSpec(docIds: seq<string>, split: string, config: Config, read: DocReader, dispatch: Dispatch, docs: ODict<string>)
    requires docs.Valid()
    ensures var r := ReadDocs(docIds, split, config, read, dispatch, docs);
            r.None? <==> exists k :: 0 <= k < |docIds| && DocText(docIds[k], split, config, read, dispatch).None?
    ensures var r := ReadDocs(docIds, split, config, read, dispatch, docs);
            r.Some? ==>
              && (forall d :: d in r.value.vals <==> d in docs.vals || d in docIds)
              && (forall d :: d in r.value.vals && d !in docIds ==> r.value.vals[d] == docs.vals[d])
              && (forall d :: d in docIds ==> DocText(d, split, config, read, dispatch) == Some(r.value.vals[d]))
    decreases |docIds|
  {
    if |docIds| > 0 {
      var d0 := docIds[0];
      var text := DocText(d0, split, config, read, dispatch);
      if text.Some? {
        var docs' := Put(docs, d0, text.value);
        ReadDocsSpec(docIds[1..], split, config, read, dispatch, docs');
        assert docIds == [d0] + docIds[1..];
        assert forall k :: 1 <= k < |docIds| ==> docIds[k] == docIds[1..][k - 1];
      }
    }
  }

  /** As the code stands, an ACQUAINT-2 document of a topic holds the text
      `process_acquaint1` reads from its ACQUAINT-2 path, after
      `process_acquaint2` has read the same path without raising, and the
      topic's read fails when `process_acquaint1` raises there (as it does
      on a file with no `<docno>` equal to the id). Any other document
      holds its own corpus parser's text. */
  lemma ReadDocsAsWritten(docIds: seq<string>, split: string, config: Config, read: DocReader, d: string)
    requires d in docIds
    ensures var r := ReadDocs(docIds, split, config, read, ParsersCalledAsWritten, EmptyDict());
            r.Some? ==>
              && GetPathFromDocId(d, split, config).Some? && d in r.value.vals
              && (CorpusOf(d, split) == Acquaint2 ==>
                    && read(ProcessAcquaint2, GetPathFromDocId(d, split, config).value, d).Some?
                    && read(ProcessAcquaint1, GetPathFromDocId(d, split, config).value, d) == Some(r.value.vals[d]))
              && (CorpusOf(d, split) != Acquaint2 ==>
                    read(ParserFor(CorpusOf(d, split)), GetPathFromDocId(d, split, config).value, d) == Some(r.value.vals[d]))
    ensures CorpusOf(d, split) == Acquaint2 && GetPathFromDocId(d, split, config).Some? &&
            read(ProcessAcquaint1, GetPathFromDocId(d, split, config).value, d).None? ==>
              ReadDocs(docIds, split, config, read, ParsersCalledAsWritten, EmptyDict()).None?
  {
    ReadDocsSpec(docIds, split, config, read, ParsersCalledAsWritten, EmptyDict());
    if GetPathFromDocId(d, split, config).Some? {
      DocTextAsWritten(d, split, config, read);
    }
    var k :| 0 <= k < |docIds| && docIds[k] == d;
  }

  /** With the intended `elif` every document holds the text its own
      corpus parser reads from its path, and a topic's read fails exactly
      when that parser raises on one of them (or a path is missing). */
  lemma ReadDocsCorrected(docIds: seq<string>, split: string, config: Config, read: DocReader, d: string)
    requires d in docIds
    ensures var r := ReadDocs(docIds, split, config, read, ParsersCalled, EmptyDict());
            r.Some? ==>
              && GetPathFromDocId(d, split, config).Some? && d in r.value.vals
              && read(ParserFor(CorpusOf(d, split)), GetPathFromDocId(d, split, config).value, d) == Some(r.value.vals[d])
    ensures GetPathFromDocId(d, split, config).Some? &&
            read(ParserFor(CorpusOf(d, split)), GetPathFromDocId(d, split, config).value, d).None? ==>
              ReadDocs(docIds, split, config, read, ParsersCalled, EmptyDict()).None?
  {
    ReadDocsSpec(docIds, split, config, read, ParsersCalled, EmptyDict());
    var k :| 0 <= k < |docIds| && docIds[k] == d;
  }

  /** Whether position `i` holds the first occurrence of its topic id. */
  predicate FirstOccurrence(topicIds: seq<string>, i: nat)
    requires i < |topicIds|
  {
    topicIds[i] !in topicIds[..i]
  }

  /** The loaded collection's topic ids are those of the topic file, and
      the topics already loaded keep their data. */
  lemma {:induction false} ReadTopicsKeys(topicIds: seq<string>, titles: seq<string>, narratives: seq<string>, docsOf: string -> seq<string>,
                                          split: string, config: Config, read: DocReader, dispatch: Dispatch, i: nat, data: ODict<TopicData>)
    requires i <= |topicIds| && data.Valid()
    requires forall t :: t in data.vals <==> t in topicIds[..i]
    ensures var r := ReadTopics(topicIds, titles, narratives, docsOf, split, config, read, dispatch, i, data);
            r.Some? ==>
              && (forall t :: t in r.value.vals <==> t in topicIds)
              && (forall t :: t in data.vals ==> r.value.vals[t] == data.vals[t])
    decreases |topicIds| - i
  {
    if i == |topicIds| {
      assert topicIds[..i] == topicIds;
    } else {
      var r := ReadTopics(topicIds, titles, narratives, docsOf, split, config, read, dispatch, i, data);
      var t := topicIds[i];
      assert topicIds[..i + 1] == topicIds[..i] + [t];
      if t in data.vals {
        ReadTopicsKeys(topicIds, titles, narratives, docsOf, split, config, read, dispatch, i + 1, data);
      } else if r.Some? {
        var docs := ReadDocs(docsOf(t), split, config, read, dispatch, EmptyDict()).value;
        var narrative := if HasNarrative(split) then Some(RemoveChar(narratives[i], '\t')) else None;
        var data' := Put(data, t, TopicData(titles[i], narrative, docs));
        ReadTopicsKeys(topicIds, titles, narratives, docsOf, split, config, read, dispatch, i + 1, data');
      }
    }
  }

  /** Topic `topicIds[j]` of the collection `rv` holds title `j` (and for
      training a narrative) and the documents read for it. */
  predicate LoadedAt(topicIds: seq<string>, titles: seq<string>, docsOf: string -> seq<string>,
                     split: string, config: Config, read: DocReader, dispatch: Dispatch, rv: ODict<TopicData>, j: nat)
    requires j < |topicIds|
  {
    && j < |titles|
    && topicIds[j] in rv.vals
    && rv.vals[topicIds[j]].title == titles[j]
    && (rv.vals[topicIds[j]].narrative.Some? <==> HasNarrative(split))
    && ReadDocs(docsOf(topicIds[j]), split, config, read, dispatch, EmptyDict()) == Some(rv.vals[topicIds[j]].docs)
  }

  /** Each topic of the loaded collection holds the title (and for training
      the narrative) at its first occurrence in the topic file, and its
      documents. */
  lemma {:induction false} ReadTopicsFirst(topicIds: seq<string>, titles: seq<string>, narratives: seq<string>, docsOf: string -> seq<string>,
                                           split: string, config: Config, read: DocReader, dispatch: Dispatch, i: nat, data: ODict<TopicData>)
    requires i <= |topicIds| && data.Valid()
    requires forall t :: t in data.vals <==> t in topicIds[..i]
    ensures var r := ReadTopics(topicIds, titles, narratives, docsOf, split, config, read, dispatch, i, data);
            r.Some? ==>
              forall j :: i <= j < |topicIds| && FirstOccurrence(topicIds, j) ==>
                LoadedAt(topicIds, titles, docsOf, split, config, read, dispatch, r.value, j)
    decreases |topicIds| - i
  {
    var r := ReadTopics(topicIds, titles, narratives, docsOf, split, config, read, dispatch, i, data);
    if i < |topicIds| && r.Some? {
      var t := topicIds[i];
      assert topicIds[..i + 1] == topicIds[..i] + [t];
      if t in data.vals {
        ReadTopicsFirst(topicIds, titles, narratives, docsOf, split, config, read, dispatch, i + 1, data);
        assert !FirstOccurrence(topicIds, i);
      } else {
        var docs := ReadDocs(docsOf(t), split, config, read, dispatch, EmptyDict()).value;
        var narrative := if HasNarrative(split) then Some(RemoveChar(narratives[i], '\t')) else None;
        var data' := Put(data, t, TopicData(titles[i], narrative, docs));
        assert r == ReadTopics(topicIds, titles, narratives, docsOf, split, config, read, dispatch, i + 1, data');
        ReadTopicsFirst(topicIds, titles, narratives, docsOf, split, config, read, dispatch, i + 1, data');
        ReadTopicsKeys(topicIds, titles, narratives, docsOf, split, config, read, dispatch, i + 1, data');
        assert LoadedAt(topicIds, titles, docsOf, split, config, read, dispatch, r.value, i);
        forall j | i < j < |topicIds| && FirstOccurrence(topicIds, j)
          ensures topicIds[j] != t
        {
          assert topicIds[..j][i] == t;
        }
      }
    }
  }

  /** The position where the topic id at `j` first occurs. */
  lemma {:induction false} FirstOccurrenceOf(topicIds: seq<string>, j: nat) returns (f: nat)
    requires j < |topicIds|
    ensures f <= j && topicIds[f] == topicIds[j] && FirstOccurrence(topicIds, f)
    decreases j
  {
    if FirstOccurrence(topicIds, j) {
      f := j;
    } else {
      var g :| 0 <= g < j && topicIds[..j][g] == topicIds[j];
      f := FirstOccurrenceOf(topicIds, g);
    }
  }

  /** A topic whose documents cannot be read makes the whole read fail,
      once the loop reaches its first occurrence. */
  lemma {:induction false} ReadTopicsNone(topicIds: seq<string>, titles: seq<string>, narratives: seq<string>, docsOf: string -> seq<string>,
                                          split: string, config: Config, read: DocReader, dispatch: Dispatch, i: nat, data: ODict<TopicData>, j: nat)
    requires i <= j < |topicIds| && data.Valid()
    requires forall t :: t in data.vals <==> t in topicIds[..i]
    requires FirstOccurrence(topicIds, j)
    requires ReadDocs(docsOf(topicIds[j]), split, config, read, dispatch, EmptyDict()).None?
    ensures ReadTopics(topicIds, titles, narratives, docsOf, split, config, read, dispatch, i, data).None?
    decreases |topicIds| - i
  {
    var t := topicIds[i];
    assert topicIds[..i + 1] == topicIds[..i] + [t];
    if i < j {
      assert topicIds[..j][i] == t;
      if t !in data.vals {
        var docs := ReadDocs(docsOf(t), split, config, read, dispatch, EmptyDict());
        if docs.Some? && !(i >= |titles| || (HasNarrative(split) && i >= |narratives|)) {
          var narrative := if HasNarrative(split) then Some(RemoveChar(narratives[i], '\t')) else None;
          ReadTopicsNone(topicIds, titles, narratives, docsOf, split, config, read, dispatch, i + 1,
                         Put(data, t, TopicData(titles[i], narrative, docs.value)), j);
        }
      } else {
        ReadTopicsNone(topicIds, titles, narratives, docsOf, split, config, read, dispatch, i + 1, data, j);
      }
    }
  }

  /** `read_data` as it stands: every topic holds, for each ACQUAINT-2
      document it lists, the text the ACQUAINT parser reads from that
      document's ACQUAINT-2 path, and where that parser raises the whole
      read fails. */
  lemma ReadTopicsAsWritten(topicIds: seq<string>, titles: seq<string>, narratives: seq<string>, docsOf: string -> seq<string>,
                            split: string, config: Config, read: DocReader, j: nat, d: string)
    requires j < |topicIds| && d in docsOf(topicIds[j]) && CorpusOf(d, split) == Acquaint2
    ensures var r := ReadTopics(topicIds, titles, narratives, docsOf, split, config, read, ParsersCalledAsWritten, 0, EmptyDict());
            r.Some? ==>
              && topicIds[j] in r.value.vals && d in r.value.vals[topicIds[j]].docs.vals
              && GetPathFromDocId(d, split, config).Some?
              && read(ProcessAcquaint1, GetPathFromDocId(d, split, config).value, d) == Some(r.value.vals[topicIds[j]].docs.vals[d])
    ensures GetPathFromDocId(d, split, config).Some? && read(ProcessAcquaint1, GetPathFromDocId(d, split, config).value, d).None? ==>
              ReadTopics(topicIds, titles, narratives, docsOf, split, config, read, ParsersCalledAsWritten, 0, EmptyDict()).None?
  {
    var f := FirstOccurrenceOf(topicIds, j);
    ReadTopicsFirst(topicIds, titles, narratives, docsOf, split, config, read, ParsersCalledAsWritten, 0, EmptyDict());
    ReadDocsAsWritten(docsOf(topicIds[j]), split, config, read, d);
    if ReadDocs(docsOf(topicIds[f]), split, config, read, ParsersCalledAsWritten, EmptyDict()).None? {
      ReadTopicsNone(topicIds, titles, narratives, docsOf, split, config, read, ParsersCalledAsWritten, 0, EmptyDict(), f);
    }
  }

  /** The inner loop of `read_data`: the documents of one topic, with the
      parser dispatch as the code stands. */
  method ReadTopicDocs(docIds: seq<string>, split: string, config: Config, read: DocReader) returns (r: Option<ODict<string>>)
    ensures r == ReadDocs(docIds, split, config, read, ParsersCalledAsWritten, EmptyDict())
  {
    var docs: ODict<string> := EmptyDict();
    var j := 0;
    while j < |docIds|
      invariant j <= |docIds| && docs.Valid()
      invariant ReadDocs(docIds[j..], split, config, read, ParsersCalledAsWritten, docs) ==
                ReadDocs(docIds, split, config, read, ParsersCalledAsWritten, EmptyDict())
    {
      var docId := docIds[j];
      var path := GetPathFromDocId(docId, split, config);
      if path.None? {
        return None;
      }
      var document: Option<string>;
      if '_' in docId && split != "evaltest" {
        document := read(ProcessAcquaint2, path.value, docId);
        if document.None? {
          return None;
        }
      }
      if '_' in docId && split == "evaltest" {
        document := read(ProcessEvaltest, path.value, docId);
      } else {
        document := read(ProcessAcquaint1, path.value, docId);
      }
      if document.None? {
        return None;
      }
      assert docIds[j..][1..] == docIds[j + 1..];
      docs := Put(docs, docId, document.value);
      j := j + 1;
    }
    assert docIds[j..] == [];
    return Some(docs);
  }

  /** `read_data` after the cache check: the title and narrative lists,
      then the loop over the topics of the topic file, with the parser
      dispatch as the code stands. */
  method ReadData(topicIds: seq<string>, rawTitles: seq<string>, rawNarratives: seq<string>, docsOf: string -> seq<string>,
                  split: string, config: Config, read: DocReader) returns (r: Option<ODict<TopicData>>)
    ensures r == ReadTopics(topicIds, CleanFields(rawTitles), if split != "evaltest" then CleanFields(rawNarratives) else [],
                            docsOf, split, config, read, ParsersCalledAsWritten, 0, EmptyDict())
  {
    var titles := CleanFields(rawTitles);
    var narratives: seq<string> := [];
    if split != "evaltest" {
      narratives := CleanFields(rawNarratives);
    }
    var data: ODict<TopicData> := EmptyDict();
    var i := 0;
    while i < |topicIds|
      invariant i <= |topicIds| && data.Valid()
      invariant ReadTopics(topicIds, titles, narratives, docsOf, split, config, read, ParsersCalledAsWritten, i, data) ==
                ReadTopics(topicIds, titles, narratives, docsOf, split, config, read, ParsersCalledAsWritten, 0, EmptyDict())
    {
      var topicId := topicIds[i];
      if topicId !in data.vals {
        if i >= |titles| || (HasNarrative(split) && i >= |narratives|) {
          return None;
        }
        var docs := ReadTopicDocs(docsOf(topicId), split, config, read);
        if docs.None? {
          return None;
        }
        var narrative := if HasNarrative(split) then Some(RemoveChar(narratives[i], '\t')) else None;
        data := Put(data, topicId, TopicData(titles[i], narrative, docs.value));
      }
      i := i + 1;
    }
    return Some(data);
  }
}
