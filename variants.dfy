/**
 * `extract_variants` (new/converter.py:241-270): the stops listed under each
 * "Variants" heading, each with the page it links to.
 */
module Variants {
  import opened Results
  import opened PyText
  import opened Dom
  import opened Folds

  const VARIANTS := "Variants"

  datatype Variant = Variant(name: string, link: string)

  predicate IsVariantsHeading(h: Heading) {
    GetText(h.h2) == VARIANTS
  }

  /**
   * The page a variant links to: the last `/` segment of the href, cut before
   * its extension when `splitext` finds one, whole otherwise.
   */
  function PageOf(href: string): (r: string)
    ensures '/' !in r
    ensures |r| <= |LastSegment(href)| && r == LastSegment(href)[..|r|]
    ensures |r| < |LastSegment(href)| ==> ExtStart(LastSegment(href), |r|)
    ensures |r| == |LastSegment(href)| ==> forall d :: !ExtStart(LastSegment(href), d)
  {
    var segment := LastSegment(href);
    var parts := SplitExt(segment);
    assert parts.0 == (parts.0 + parts.1)[..|parts.0|];
    assert '/' !in parts.0 by {
      forall i | 0 <= i < |parts.0| ensures parts.0[i] != '/' {
        assert parts.0[i] == segment[i];
      }
    }
    parts.0
  }

  /** A descendant of a variants table: an anchor is a variant (KeyError without an href), anything else nothing. */
  function AnchorVariant(d: Desc): (r: Result<Option<Variant>>)
    ensures r.Ok? && r.value.None? <==> !IsAnchor(d)
    ensures r.Err? ==> r.error == KeyError("href")
    ensures r.Ok? && r.value.Some? ==>
      "href" in d.attrs && r.value.value == Variant(Finalize(d.text), PageOf(d.attrs["href"]))
  {
    if IsAnchor(d) then
      var href :- Href(d.attrs);
      Ok(Some(Variant(Finalize(d.text), PageOf(href))))
    else Ok(None)
  }

  /**
   * What the element after a "Variants" heading gives: a table one variant per
   * anchor among its descendants, an anchor itself, a paragraph nothing; any
   * other element, or a string, raises RuntimeError.
   */
  function ElementVariants(n: Node): (r: Result<seq<Variant>>)
    ensures n.Element? && n.name == "table" ==> r == Collect(n.descendants, AnchorVariant)
    ensures n.Element? && n.name == "a" ==>
      r == if "href" in n.attrs then Ok([Variant(Finalize(GetText(n)), PageOf(n.attrs["href"]))])
           else Err(KeyError("href"))
    ensures n.Element? && n.name == "p" ==> r == Ok([])
    ensures !n.Element? || n.name !in {"table", "a", "p"} ==>
      r == Err(RuntimeError("unknown variants element: " + NameText(n)))
  {
    if n.Element? && n.name == "table" then Collect(n.descendants, AnchorVariant)
    else if n.Element? && n.name == "a" then
      var href :- Href(n.attrs);
      Ok([Variant(Finalize(GetText(n)), PageOf(href))])
    else if n.Element? && n.name == "p" then Ok([])
    else Err(RuntimeError("unknown variants element: " + NameText(n)))
  }

  /**
   * What one heading contributes: nothing unless it is a "Variants" heading;
   * then what the next element gives (AttributeError when there is none).
   */
  function VariantsAt(h: Heading): (r: Result<seq<Variant>>)
    ensures !IsVariantsHeading(h) ==> r == Ok([])
    ensures IsVariantsHeading(h) && NextElement(h.after, 0).None? ==> r == Err(AttributeError("name"))
    ensures IsVariantsHeading(h) && NextElement(h.after, 0).Some? ==>
      r == ElementVariants(h.after[NextElement(h.after, 0).value])
  {
    if !IsVariantsHeading(h) then Ok([])
    else
      match NextElement(h.after, 0)
      case None => Err(AttributeError("name"))
      case Some(j) => ElementVariants(h.after[j])
  }

  /** `extract_variants`, given the page's `h2` headings in document order. */
  function VariantsOf(headings: seq<Heading>): Result<seq<Variant>> {
    FlatCollect(headings, VariantsAt)
  }

  method ExtractVariants(headings: seq<Heading>) returns (r: Result<seq<Variant>>)
    ensures r == VariantsOf(headings)
  {
    var variants: seq<Variant> := [];
    for i := 0 to |headings|
      invariant FlatCollect(headings[..i], VariantsAt) == Ok(variants)
    {
      FlatCollectStep(headings, i, VariantsAt);
      var h := headings[i];
      var found := ReadVariantsAt(h);
      if found.Err? {
        FlatCollectKeepsError(headings[..i + 1], headings[i + 1..], VariantsAt);
        SplitAt(headings, i + 1);
        return Err(found.error);
      }
      variants := variants + found.value;
    }
    SplitAt(headings, |headings|);
    r := Ok(variants);
  }

  /** The body of the heading loop, with the inner loop over a table's descendants. */
  method ReadVariantsAt(h: Heading) returns (r: Result<seq<Variant>>)
    ensures r == VariantsAt(h)
  {
    if GetText(h.h2) != VARIANTS {
      return Ok([]);
    }
    var next := GetNextElement(h.after, 0);
    if next.None? {
      return Err(AttributeError("name"));
    }
    var element := h.after[next.value];
    if element.Element? && element.name == "table" {
      var ds := element.descendants;
      var found: seq<Variant> := [];
      for j := 0 to |ds|
        invariant Collect(ds[..j], AnchorVariant) == Ok(found)
      {
        CollectStep(ds, j, AnchorVariant);
        var desc := ds[j];
        if desc.DTag? && desc.name == "a" {
          if "href" !in desc.attrs {
            CollectKeepsError(ds[..j + 1], ds[j + 1..], AnchorVariant);
            SplitAt(ds, j + 1);
            return Err(KeyError("href"));
          }
          var path := LastSegment(desc.attrs["href"]);
          found := found + [Variant(Finalize(desc.text), SplitExt(path).0)];
        }
      }
      SplitAt(ds, |ds|);
      r := Ok(found);
    } else if element.Element? && element.name == "a" {
      if "href" !in element.attrs {
        return Err(KeyError("href"));
      }
      var path := LastSegment(element.attrs["href"]);
      r := Ok([Variant(Finalize(GetText(element)), SplitExt(path).0)]);
    } else if element.Element? && element.name == "p" {
      r := Ok([]);
    } else {
      r := Err(RuntimeError("unknown variants element: " + NameText(element)));
    }
  }

  // ---------------------------------------------------------------------------
  // Properties

  /** The headings are read one by one: two runs of headings give their two lists, joined. */
  lemma VariantsAppend(a: seq<Heading>, b: seq<Heading>)
    requires VariantsOf(a).Ok? && VariantsOf(b).Ok?
    ensures VariantsOf(a + b) == Ok(VariantsOf(a).value + VariantsOf(b).value)
  {
    FlatCollectAppend(a, b, VariantsAt);
  }

  /** A table gives exactly one variant per anchor, in document order, each named and linked by that anchor. */
  lemma TableVariants(ds: seq<Desc>)
    requires Collect(ds, AnchorVariant).Ok?
    ensures |Collect(ds, AnchorVariant).value| == |Filter(ds, IsAnchor)|
    ensures forall k :: 0 <= k < |Filter(ds, IsAnchor)| ==>
      var d := Filter(ds, IsAnchor)[k];
      "href" in d.attrs && Collect(ds, AnchorVariant).value[k] == Variant(Finalize(d.text), PageOf(d.attrs["href"]))
  {
    CollectFollows(ds, AnchorVariant, IsAnchor);
  }

  predicate LinkIsName(v: Variant) {
    '/' !in v.link
  }

  /** A variant read from an anchor links to a page name. */
  lemma AnchorLinksAreNames()
    ensures forall d :: AnchorVariant(d).Ok? && AnchorVariant(d).value.Some? ==> LinkIsName(AnchorVariant(d).value.value)
  {
  }

  /** The variants of a table link to page names. */
  lemma TableLinksAreNames(ds: seq<Desc>)
    requires Collect(ds, AnchorVariant).Ok?
    ensures forall k :: 0 <= k < |Collect(ds, AnchorVariant).value| ==> LinkIsName(Collect(ds, AnchorVariant).value[k])
  {
    AnchorLinksAreNames();
    CollectEvery(ds, AnchorVariant, LinkIsName);
  }

  /** The variants the element after a heading gives link to page names. */
  lemma ElementLinksAreNames(n: Node)
    requires ElementVariants(n).Ok?
    ensures forall k :: 0 <= k < |ElementVariants(n).value| ==> LinkIsName(ElementVariants(n).value[k])
  {
    if n.Element? && n.name == "table" {
      TableLinksAreNames(n.descendants);
    } else if n.Element? && n.name == "a" {
      var v := Variant(Finalize(GetText(n)), PageOf(n.attrs["href"]));
      assert ElementVariants(n).value == [v] && LinkIsName(v);
    } else {
      assert ElementVariants(n).value == [];
    }
  }

  /** No variant link holds a `/`: each is a page name. */
  lemma LinksAreNames(headings: seq<Heading>)
    requires VariantsOf(headings).Ok?
    ensures forall k :: 0 <= k < |VariantsOf(headings).value| ==> '/' !in VariantsOf(headings).value[k].link
  {
    forall h | VariantsAt(h).Ok?
      ensures forall k :: 0 <= k < |VariantsAt(h).value| ==> LinkIsName(VariantsAt(h).value[k])
    {
      if IsVariantsHeading(h) {
        ElementLinksAreNames(h.after[NextElement(h.after, 0).value]);
      }
    }
    FlatCollectEvery(headings, VariantsAt, LinkIsName);
  }
}
