/** The ROUGE configuration script: an XML tree with one EVAL element per
    system summary, listing the summary as the single peer and, as models,
    the human summaries whose names contain the EVAL id; then the
    pretty-printing pass that puts each tag on its own indented line by
    rewriting blank `text` and `tail` strings. */
module EvalConfig {
  import opened Text
  import opened Collections

  /** An element of an ElementTree: tag, attributes in insertion order,
      `text` and `tail` (`None` is Python's `None`), and children. */
  datatype Element = Element(tag: string, attrib: seq<(string, string)>, text: Option<string>, tail: Option<string>,
                             children: seq<Element>)

  // ---------------------------------------------------------------------
  // indent
  // ---------------------------------------------------------------------

  /** `not s or not s.strip()`: absent, empty or whitespace only. */
  predicate Blank(s: Option<string>)
  {
    s.None? || Strip(s.value) == ""
  }

  /** `n * "  "` */
  function Spaces(n: nat): (r: string)
    ensures |r| == 2 * n && AllSpace(r)
  {
    if n == 0 then "" else "  " + Spaces(n - 1)
  }

  /** `"\n" + level * "  "`: a line break and the indentation of `level`. */
  function Pad(level: nat): string
  {
    "\n" + Spaces(level)
  }

  lemma {:induction false} LeadingSpaceAll(s: string)
    requires AllSpace(s)
    ensures LeadingSpace(s) == |s|
    decreases |s|
  {
    if |s| > 0 {
      LeadingSpaceAll(s[1..]);
    }
  }

  /** Whitespace strips to nothing. */
  lemma AllSpaceBlank(s: string)
    requires AllSpace(s)
    ensures Blank(Some(s))
  {
    LeadingSpaceAll(s);
  }

  /** The paddings `indent` writes are themselves blank, so a second pass
      may overwrite them. */
  lemma PadBlank(level: nat)
    ensures Blank(Some(Pad(level))) && Blank(Some(Pad(level) + "  "))
  {
    AllSpaceBlank(Pad(level));
    assert AllSpace(Pad(level) + "  ");
    AllSpaceBlank(Pad(level) + "  ");
  }

  /** A last child whose blank tail its parent at `level` resets to the
      parent's own padding. */
  function Retail(c: Element, level: nat): Element
  {
    if Blank(c.tail) then c.(tail := Some(Pad(level))) else c
  }

  /** After the child loop of `indent` the loop variable names the last
      child, whose tail is reset to the parent's padding when it
      is blank. */
  function RetailLast(kids: seq<Element>, level: nat): (r: seq<Element>)
    requires |kids| > 0
    ensures |r| == |kids| && r[..|kids| - 1] == kids[..|kids| - 1]
  {
    kids[..|kids| - 1] + [Retail(kids[|kids| - 1], level)]
  }

  /** `indent(elem, level)`, on values: an element with children gets its
      blank text set to the padding of its children and its blank tail to
      its own padding, its children are indented one level deeper, and the
      last child's blank tail is set back to this element's padding; a leaf
      below the root gets its blank tail set to its own padding. */
  function Indent(e: Element, level: nat): Element
    decreases e
  {
    if |e.children| > 0 then
      var kids := seq(|e.children|, i requires 0 <= i < |e.children| => Indent(e.children[i], level + 1));
      Element(e.tag, e.attrib,
              if Blank(e.text) then Some(Pad(level) + "  ") else e.text,
              if Blank(e.tail) then Some(Pad(level)) else e.tail,
              RetailLast(kids, level))
    else if level > 0 && Blank(e.tail) then e.(tail := Some(Pad(level)))
    else e
  }

  /** `b` is `a` with only blank texts and tails replaced by other blank
      ones: same tags, attributes and children, recursively. */
  predicate WhitespaceOnly(a: Element, b: Element)
    decreases a
  {
    && a.tag == b.tag && a.attrib == b.attrib && |a.children| == |b.children|
    && (a.text == b.text || (Blank(a.text) && Blank(b.text)))
    && (a.tail == b.tail || (Blank(a.tail) && Blank(b.tail)))
    && forall i :: 0 <= i < |a.children| ==> WhitespaceOnly(a.children[i], b.children[i])
  }

  /** The children of an indented element: each child indented one level
      deeper, the last one with its blank tail reset to the parent's
      padding. */
  lemma IndentChild(e: Element, level: nat, i: nat)
    requires i < |e.children|
    ensures Indent(e, level).children[i] ==
              if i == |e.children| - 1 then Retail(Indent(e.children[i], level + 1), level)
              else Indent(e.children[i], level + 1)
    ensures |Indent(e, level).children| == |e.children|
  {
  }

  /** Indenting changes whitespace only: every tag, attribute, non-blank
      text and non-blank tail is kept, and the tree keeps its shape. */
  lemma {:induction false} IndentWhitespaceOnly(e: Element, level: nat)
    ensures WhitespaceOnly(e, Indent(e, level))
    decreases e
  {
    PadBlank(level);
    var r := Indent(e, level);
    if |e.children| > 0 {
      var n := |e.children|;
      forall i | 0 <= i < n ensures WhitespaceOnly(e.children[i], r.children[i]) {
        IndentWhitespaceOnly(e.children[i], level + 1);
        IndentChild(e, level, i);
        if i == n - 1 {
          RetailWhitespace(e.children[i], Indent(e.children[i], level + 1), level);
        }
      }
    }
    IndentTop(e, level);
  }

  /** The element itself keeps its tag and attributes and changes only
      blank text and tail, into blank ones. */
  lemma IndentTop(e: Element, level: nat)
    ensures var r := Indent(e, level);
            && r.tag == e.tag && r.attrib == e.attrib && |r.children| == |e.children|
            && (r.text == e.text || (Blank(e.text) && Blank(r.text)))
            && (r.tail == e.tail || (Blank(e.tail) && Blank(r.tail)))
  {
    PadBlank(level);
  }

  /** Resetting a blank tail of an indented element keeps it a whitespace
      variant of the original. */
  lemma RetailWhitespace(a: Element, b: Element, level: nat)
    requires WhitespaceOnly(a, b)
    ensures WhitespaceOnly(a, Retail(b, level))
  {
    PadBlank(level);
  }

  /** The text of an element with children: its blank text becomes the
      padding of its children's level, other text is kept. */
  lemma IndentText(e: Element, level: nat)
    ensures |e.children| > 0 && Blank(e.text) ==> Indent(e, level).text == Some(Pad(level) + "  ")
    ensures !Blank(e.text) || |e.children| == 0 ==> Indent(e, level).text == e.text
  {
  }

  /** The tail of an element: blank tails below the root, and the root's
      own when it has children, become the element's padding; a root
      without children is left untouched; other tails are kept. */
  lemma IndentTail(e: Element, level: nat)
    ensures Blank(e.tail) && (|e.children| > 0 || level > 0) ==> Indent(e, level).tail == Some(Pad(level))
    ensures !Blank(e.tail) ==> Indent(e, level).tail == e.tail
    ensures level == 0 && |e.children| == 0 ==> Indent(e, level) == e
  {
  }

  /** The last child ends its parent's block: its blank tail becomes the
      parent's padding, not its own; every earlier child's blank tail is
      its own padding. */
  lemma IndentChildTails(e: Element, level: nat, i: nat)
    requires i < |e.children|
    ensures var c := e.children[i];
            var r := Indent(e, level).children[i];
            && (Blank(c.tail) && i == |e.children| - 1 ==> r.tail == Some(Pad(level)))
            && (Blank(c.tail) && i < |e.children| - 1 ==> r.tail == Some(Pad(level + 1)))
            && (!Blank(c.tail) ==> r.tail == c.tail)
  {
    var c := e.children[i];
    IndentTail(c, level + 1);
    PadBlank(level + 1);
  }

  /** Indenting twice is indenting once. */
  lemma {:induction false} IndentIdempotent(e: Element, level: nat)
    ensures Indent(Indent(e, level), level) == Indent(e, level)
    decreases e
  {
    PadBlank(level);
    var r := Indent(e, level);
    if |e.children| > 0 {
      var n := |e.children|;
      var rr := Indent(r, level);
      forall i | 0 <= i < n ensures rr.children[i] == r.children[i] {
        var c := e.children[i];
        IndentIdempotent(c, level + 1);
        if i == n - 1 {
          IndentRetailed(Indent(c, level + 1), level);
        }
      }
      assert rr.children == r.children;
    }
  }

  /** Indenting a last child whose tail was reset gives the element back
      with its own padding, which the parent then resets again. */
  lemma IndentRetailed(c: Element, level: nat)
    requires Indent(c, level + 1) == c
    ensures Retail(Indent(Retail(c, level), level + 1), level) == Retail(c, level)
  {
    PadBlank(level);
    PadBlank(level + 1);
  }

  // ---------------------------------------------------------------------
  // build_tree
  // ---------------------------------------------------------------------

  /** `f[:-7]`: the EVAL id of a system summary file. */
  function EvalId(f: string): string
  {
    PyTake(f, -7)
  }

  /** `[model for model in models_dir if EVAL_ID in model]` */
  function MatchingModels(models: seq<string>, evalId: string): (r: seq<string>)
  {
    if |models| == 0 then []
    else if Contains(models[|models| - 1], evalId) then MatchingModels(models[..|models| - 1], evalId) + [models[|models| - 1]]
    else MatchingModels(models[..|models| - 1], evalId)
  }

  /** The matching models are exactly the models containing the id. */
  lemma {:induction false} MatchingModelsSpec(models: seq<string>, evalId: string)
    ensures forall m :: m in MatchingModels(models, evalId) <==> m in models && Contains(m, evalId)
    decreases |models|
  {
    if |models| > 0 {
      var init := models[..|models| - 1];
      MatchingModelsSpec(init, evalId);
      assert models == init + [models[|models| - 1]];
    }
  }

  /** A new element as `ET.SubElement` makes it: no text, no tail. */
  function Node(tag: string, attrib: seq<(string, string)>, text: Option<string>, children: seq<Element>): Element
  {
    Element(tag, attrib, text, None, children)
  }

  /** The `M` elements of the matching models, in order; `None` where a
      model name is empty and `m[-1]` raises. */
  function ModelElements(ms: seq<string>): Option<seq<Element>>
  {
    if |ms| == 0 then Some([])
    else
      match ModelElements(ms[..|ms| - 1])
      case None => None
      case Some(es) =>
        var m := ms[|ms| - 1];
        if |m| == 0 then None else Some(es + [Node("M", [("ID", [m[|m| - 1]])], Some(m), [])])
  }

  /** One EVAL element of `build_tree`. */
  function EvalElement(f: string, outputsPath: string, models: seq<string>, modelPath: string): Option<Element>
  {
    var evalId := EvalId(f);
    match ModelElements(MatchingModels(models, evalId))
    case None => None
    case Some(ms) =>
      Some(Node("EVAL", [("ID", evalId)], None,
                [Node("PEER-ROOT", [], Some(outputsPath), []),
                 Node("MODEL-ROOT", [], Some(modelPath), []),
                 Node("INPUT-FORMAT", [("TYPE", "SPL")], None, []),
                 Node("PEERS", [], None, [Node("P", [("ID", "1")], Some(f), [])]),
                 Node("MODELS", [], None, ms)]))
  }

  /** The EVAL elements of the first `k` output files. */
  function EvalElements(outputs: seq<string>, outputsPath: string, models: seq<string>, modelPath: string): Option<seq<Element>>
  {
    if |outputs| == 0 then Some([])
    else
      match EvalElements(outputs[..|outputs| - 1], outputsPath, models, modelPath)
      case None => None
      case Some(es) =>
        match EvalElement(outputs[|outputs| - 1], outputsPath, models, modelPath)
        case None => None
        case Some(e) => Some(es + [e])
  }

  /** The tree `build_tree` writes, indented; `None` where a model name
      raises. */
  function RougeTree(outputs: seq<string>, outputsPath: string, models: seq<string>, modelPath: string): Option<Element>
  {
    match EvalElements(outputs, outputsPath, models, modelPath)
    case None => None
    case Some(evals) => Some(Indent(Node("ROUGE_EVAL", [("version", "1.5.5")], None, evals), 0))
  }

  lemma ModelElementsSnoc(ms: seq<string>, i: nat)
    requires i < |ms|
    ensures ModelElements(ms[..i + 1]) ==
              match ModelElements(ms[..i])
              case None => None
              case Some(es) => if |ms[i]| == 0 then None else Some(es + [Node("M", [("ID", [ms[i][|ms[i]| - 1]])], Some(ms[i]), [])])
  {
    assert ms[..i + 1][..i] == ms[..i];
  }

  lemma ModelElementsStuck(ms: seq<string>, i: nat, j: nat)
    requires i <= j <= |ms| && ModelElements(ms[..i]).None?
    ensures ModelElements(ms[..j]).None?
    decreases j - i
  {
    if i < j {
      ModelElementsSnoc(ms, i);
      ModelElementsStuck(ms, i + 1, j);
    }
  }

  /** One turn of the loop over output files: the EVAL element with its
      peer and the `M` elements of the matching models. */
  method BuildEval(f: string, outputsPath: string, models: seq<string>, modelPath: string) returns (r: Option<Element>)
    ensures r == EvalElement(f, outputsPath, models, modelPath)
  {
    var evalId := PyTake(f, -7);
    var matching := MatchingModels(models, evalId);
    var ms: seq<Element> := [];
    var i := 0;
    assert matching[..0] == [];
    while i < |matching|
      invariant i <= |matching| && ModelElements(matching[..i]) == Some(ms)
    {
      var m := matching[i];
      ModelElementsSnoc(matching, i);
      if |m| == 0 {
        ModelElementsStuck(matching, i + 1, |matching|);
        assert matching[..|matching|] == matching;
        return None;
      }
      ms := ms + [Node("M", [("ID", [m[|m| - 1]])], Some(m), [])];
      i := i + 1;
    }
    assert matching[..i] == matching;
    r := Some(Node("EVAL", [("ID", evalId)], None,
                   [Node("PEER-ROOT", [], Some(outputsPath), []),
                    Node("MODEL-ROOT", [], Some(modelPath), []),
                    Node("INPUT-FORMAT", [("TYPE", "SPL")], None, []),
                    Node("PEERS", [], None, [Node("P", [("ID", "1")], Some(f), [])]),
                    Node("MODELS", [], None, ms)]));
  }

  lemma EvalElementsSnoc(outputs: seq<string>, outputsPath: string, models: seq<string>, modelPath: string, i: nat)
    requires i < |outputs|
    ensures EvalElements(outputs[..i + 1], outputsPath, models, modelPath) ==
              match EvalElements(outputs[..i], outputsPath, models, modelPath)
              case None => None
              case Some(es) =>
                match EvalElement(outputs[i], outputsPath, models, modelPath)
                case None => None
                case Some(e) => Some(es + [e])
  {
    assert outputs[..i + 1][..i] == outputs[..i];
  }

  lemma EvalElementsStuck(outputs: seq<string>, outputsPath: string, models: seq<string>, modelPath: string, i: nat, j: nat)
    requires i <= j <= |outputs| && EvalElements(outputs[..i], outputsPath, models, modelPath).None?
    ensures EvalElements(outputs[..j], outputsPath, models, modelPath).None?
    decreases j - i
  {
    if i < j {
      EvalElementsSnoc(outputs, outputsPath, models, modelPath, i);
      EvalElementsStuck(outputs, outputsPath, models, modelPath, i + 1, j);
    }
  }

  /** `build_tree` without the file write: the root, one EVAL per output
      file, then `indent(top)`. */
  method BuildTree(outputs: seq<string>, outputsPath: string, models: seq<string>, modelPath: string) returns (r: Option<Element>)
    ensures r == RougeTree(outputs, outputsPath, models, modelPath)
  {
    var evals: seq<Element> := [];
    var i := 0;
    assert outputs[..0] == [];
    while i < |outputs|
      invariant i <= |outputs| && EvalElements(outputs[..i], outputsPath, models, modelPath) == Some(evals)
    {
      var e := BuildEval(outputs[i], outputsPath, models, modelPath);
      EvalElementsSnoc(outputs, outputsPath, models, modelPath, i);
      if e.None? {
        EvalElementsStuck(outputs, outputsPath, models, modelPath, i + 1, |outputs|);
        assert outputs[..|outputs|] == outputs;
        return None;
      }
      evals := evals + [e.value];
      i := i + 1;
    }
    assert outputs[..i] == outputs;
    var top := Node("ROUGE_EVAL", [("version", "1.5.5")], None, evals);
    r := Some(Indent(top, 0));
  }

  /** The `M` elements exist exactly when no matching model name is empty;
      then there is one per model, in order, its id the name's last
      character and its text the name. */
  lemma {:induction false} ModelElementsSpec(ms: seq<string>)
    ensures ModelElements(ms).Some? <==> forall j :: 0 <= j < |ms| ==> |ms[j]| > 0
    ensures ModelElements(ms).Some? ==>
              |ModelElements(ms).value| == |ms| &&
              forall j :: 0 <= j < |ms| ==>
                ModelElements(ms).value[j] == Node("M", [("ID", [ms[j][|ms[j]| - 1]])], Some(ms[j]), [])
    decreases |ms|
  {
    if |ms| > 0 {
      ModelElementsSpec(ms[..|ms| - 1]);
    }
  }

  /** There is one EVAL per output file, in order, exactly when no model
      matching any of them has an empty name; its id is the file name less
      its last seven characters, and its peer is the file itself. */
  lemma {:induction false} EvalElementsSpec(outputs: seq<string>, outputsPath: string, models: seq<string>, modelPath: string)
    ensures EvalElements(outputs, outputsPath, models, modelPath).Some? <==>
              forall j :: 0 <= j < |outputs| ==> EvalElement(outputs[j], outputsPath, models, modelPath).Some?
    ensures EvalElements(outputs, outputsPath, models, modelPath).Some? ==>
              var es := EvalElements(outputs, outputsPath, models, modelPath).value;
              |es| == |outputs| &&
              forall j :: 0 <= j < |outputs| ==> Some(es[j]) == EvalElement(outputs[j], outputsPath, models, modelPath)
    decreases |outputs|
  {
    if |outputs| > 0 {
      EvalElementsSpec(outputs[..|outputs| - 1], outputsPath, models, modelPath);
    }
  }

  /** An EVAL element: its id is `f[:-7]`, its peer root and model root are
      the given paths, its single peer has id "1" and the file name as text,
      and its models are the `M` elements of exactly the model names that
      contain the id, in order. */
  lemma EvalElementSpec(f: string, outputsPath: string, models: seq<string>, modelPath: string)
    requires EvalElement(f, outputsPath, models, modelPath).Some?
    ensures var e := EvalElement(f, outputsPath, models, modelPath).value;
            var matching := MatchingModels(models, EvalId(f));
            && e.tag == "EVAL" && e.attrib == [("ID", EvalId(f))]
            && |EvalId(f)| == (if |f| >= 7 then |f| - 7 else 0)
            && |e.children| == 5
            && e.children[0].text == Some(outputsPath) && e.children[1].text == Some(modelPath)
            && e.children[3].children == [Node("P", [("ID", "1")], Some(f), [])]
            && |e.children[4].children| == |matching|
            && (forall m :: m in matching <==> m in models && Contains(m, EvalId(f)))
            && forall j :: 0 <= j < |matching| ==>
                 |matching[j]| > 0 &&
                 e.children[4].children[j].attrib == [("ID", [matching[j][|matching[j]| - 1]])] &&
                 e.children[4].children[j].text == Some(matching[j])
  {
    ModelElementsSpec(MatchingModels(models, EvalId(f)));
    MatchingModelsSpec(models, EvalId(f));
  }
}
