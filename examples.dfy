/**
 * `extract_example_data` (new/converter.py:184-213): the text under a stop's
 * "Examples" heading and the list of example paragraphs.
 */
module Examples {
  import opened Results
  import opened PyText
  import opened Dom
  import opened Folds

  const EXAMPLES := "Examples"
  const BIBLIOGRAPHY := "Bibliography"

  datatype Example = Example(link: string, name: string)

  datatype ExampleData = ExampleData(description: string, examples: seq<Example>)

  const NO_EXAMPLES := ExampleData("", [])

  predicate IsExamplesHeading(h: Heading) {
    GetText(h.h2) == EXAMPLES
  }

  /** Every `p.example` paragraph as an example with an empty link, in document order. */
  function AllExamples(pars: seq<Node>): (r: seq<Example>)
    ensures |r| == |pars|
    ensures forall k :: 0 <= k < |r| ==> r[k] == Example("", Finalize(GetText(pars[k])))
  {
    seq(|pars|, k requires 0 <= k < |pars| => Example("", Finalize(GetText(pars[k]))))
  }

  /**
   * The examples written out: all of them, except that a last example whose
   * name mentions the bibliography (an unclosed paragraph running on to the
   * end of the page) is dropped.
   */
  function DropBibliography(all: seq<Example>): (r: seq<Example>)
    ensures r == all || (all != [] && r == all[..|all| - 1])
    ensures r != all <==> all != [] && Contains(all[|all| - 1].name, BIBLIOGRAPHY)
  {
    if all != [] && Contains(all[|all| - 1].name, BIBLIOGRAPHY) then all[..|all| - 1] else all
  }

  function ExampleList(pars: seq<Node>): seq<Example> {
    DropBibliography(AllExamples(pars))
  }

  /**
   * What the first "Examples" heading gives: the description from the next
   * element when it is a paragraph or a string, and then the example list;
   * any other element gives no data at all, and no next element raises
   * AttributeError.
   */
  function ExamplesAt(h: Heading, pars: seq<Node>): (r: Result<ExampleData>)
    ensures NextElement(h.after, 0).None? <==> r == Err(AttributeError("name"))
    ensures r.Ok? && r.value != NO_EXAMPLES ==> r.value.examples == ExampleList(pars)
    ensures NextElement(h.after, 0).Some? ==>
      var n := h.after[NextElement(h.after, 0).value];
      n.Element? && n.name != "p" ==> r == Ok(NO_EXAMPLES)
    ensures NextElement(h.after, 0).Some? ==>
      var n := h.after[NextElement(h.after, 0).value];
      IsString(n) || (n.Element? && n.name == "p") ==>
        r == Ok(ExampleData(Finalize(GetText(n)), ExampleList(pars)))
    ensures r.Ok? ==> IsFinal(r.value.description)
    ensures r.Ok? && r.value.description != [] ==>
      var n := h.after[NextElement(h.after, 0).value];
      r.value.description == Finalize(GetText(n)) && (IsString(n) || n.name == "p")
  {
    match NextElement(h.after, 0)
    case None => Err(AttributeError("name"))
    case Some(j) =>
      var n := h.after[j];
      if n.Element? && n.name == "p" then Ok(ExampleData(Finalize(GetText(n)), ExampleList(pars)))
      else if IsString(n) then Ok(ExampleData(Finalize(n.text), ExampleList(pars)))
      else Ok(NO_EXAMPLES)
  }

  /** `extract_example_data`, given the page's `h2` headings and its `p.example` paragraphs. */
  function ExampleDataOf(headings: seq<Heading>, pars: seq<Node>): (r: Result<ExampleData>)
    ensures FirstWhere(headings, IsExamplesHeading) == |headings| ==> r == Ok(NO_EXAMPLES)
    ensures FirstWhere(headings, IsExamplesHeading) < |headings| ==>
      r == ExamplesAt(headings[FirstWhere(headings, IsExamplesHeading)], pars)
  {
    var k := FirstWhere(headings, IsExamplesHeading);
    if k == |headings| then Ok(NO_EXAMPLES) else ExamplesAt(headings[k], pars)
  }

  method ExtractExampleData(headings: seq<Heading>, pars: seq<Node>) returns (r: Result<ExampleData>)
    ensures r == ExampleDataOf(headings, pars)
  {
    for i := 0 to |headings|
      invariant i <= FirstWhere(headings, IsExamplesHeading)
    {
      var h := headings[i];
      if GetText(h.h2) == EXAMPLES {
        FirstWhereAt(headings, IsExamplesHeading, i);
        var next := GetNextElement(h.after, 0);
        if next.None? {
          return Err(AttributeError("name"));
        }
        var description := h.after[next.value];
        var text;
        if description.Element? && description.name == "p" {
          text := Finalize(GetText(description));
        } else if IsString(description) {
          text := Finalize(description.text);
        } else {
          return Ok(NO_EXAMPLES);
        }
        return Ok(ExampleData(text, ExampleList(pars)));
      }
      FirstWhereBeyond(headings, IsExamplesHeading, i);
    }
    FirstWhereAt(headings, IsExamplesHeading, |headings|);
    r := Ok(NO_EXAMPLES);
  }

  // ---------------------------------------------------------------------------
  // Properties

  /** Only the first "Examples" heading counts: whatever follows it, later headings included, is ignored. */
  lemma FirstHeadingDecides(a: seq<Heading>, h: Heading, b: seq<Heading>, pars: seq<Node>)
    requires FirstWhere(a, IsExamplesHeading) == |a| && IsExamplesHeading(h)
    ensures ExampleDataOf(a + [h] + b, pars) == ExamplesAt(h, pars)
  {
    FirstWhereExtend(a, h, IsExamplesHeading);
    FirstWhereAppend(a + [h], b, IsExamplesHeading);
    assert (a + [h] + b)[|a|] == h;
  }

  /** A last paragraph that mentions the bibliography is dropped, and no other paragraph is. */
  lemma BibliographyDropped(pars: seq<Node>, last: Node)
    requires Contains(Finalize(GetText(last)), BIBLIOGRAPHY)
    ensures ExampleList(pars + [last]) == AllExamples(pars)
  {
    var all := AllExamples(pars + [last]);
    assert all[|all| - 1].name == Finalize(GetText(last));
    assert all[..|all| - 1] == AllExamples(pars);
  }
}
