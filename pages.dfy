/**
 * `parse_old_file` (new/converter.py:454-518): the JSON record of one legacy
 * stop page, put together from the extractors. The page arrives already
 * parsed, as the pieces the extractors read.
 */
module Pages {
  import opened Results
  import opened Dom
  import opened Folds
  import opened Summaries
  import opened StopNames
  import opened Images
  import opened Variants
  import opened Examples
  import opened SoundClips

  const NAMES := "NAMES"

  /**
   * A `table` of the page: its previous siblings, nearest first (where the
   * NAMES marker comment sits), the `br` tags inside it, and its following
   * siblings (where the prose is).
   */
  datatype Table = Table(before: seq<Node>, breaks: seq<BreakSite>, after: seq<Node>)

  /** The parsed page as the extractors see it. */
  datatype Page = Page(
    tables: seq<Table>,
    imgs: seq<Node>,
    headings: seq<Heading>,
    examplePars: seq<Node>,
    samples: Option<seq<Row>>)

  /** What a names table gives: the names and the prose after the table. */
  datatype NamesSection = NamesSection(names: seq<StopName>, summary: Summary)

  /**
   * The record written out. The names and the three prose fields are absent
   * when the page has no names table; comparisons and bibliography are
   * always empty.
   */
  datatype StopRecord = StopRecord(
    names: Option<seq<StopName>>,
    description: Option<string>,
    construction: Option<string>,
    usage: Option<string>,
    images: seq<Image>,
    variants: seq<Variant>,
    comparisons: seq<string>,
    examplesDescription: string,
    examples: seq<Example>,
    soundClips: seq<Division>,
    bibliography: seq<string>)

  predicate IsNamesTable(t: Table) {
    NextComment(t.before) == Some(NAMES)
  }

  /** One table of the loop at new/converter.py:463-479: a names table must give at least one name. */
  function TableEntry(t: Table): (r: Result<Option<NamesSection>>)
    ensures r.Ok? && r.value.None? <==> !IsNamesTable(t)
    ensures r.Ok? && r.value.Some? ==>
      Names(t.breaks).Ok? && r.value.value == NamesSection(Names(t.breaks).value, SummaryOf(t.after)) &&
      r.value.value.names != []
    ensures IsNamesTable(t) && Names(t.breaks) == Ok([]) ==> r == Err(AssertionError("names"))
  {
    if !IsNamesTable(t) then Ok(None)
    else
      var names :- Names(t.breaks);
      if names == [] then Err(AssertionError("names"))
      else Ok(Some(NamesSection(names, SummaryOf(t.after))))
  }

  function LastOf(sections: seq<NamesSection>): Option<NamesSection> {
    if sections == [] then None else Some(sections[|sections| - 1])
  }

  /** The section the record keeps: each names table overwrites the one before, so the last wins. */
  function NamesSectionOf(tables: seq<Table>): Result<Option<NamesSection>> {
    var sections :- Collect(tables, TableEntry);
    Ok(LastOf(sections))
  }

  /** The record of a page, or the first exception an extractor raises, in the order they run. */
  function Record(page: Page): (r: Result<StopRecord>)
    ensures r.Ok? ==> r.value.comparisons == [] && r.value.bibliography == []
    ensures r.Ok? ==> (r.value.names.Some? <==> r.value.description.Some?)
    ensures r.Ok? && r.value.names.Some? ==> r.value.names.value != []
    ensures r.Ok? <==>
      NamesSectionOf(page.tables).Ok? && VariantsOf(page.headings).Ok? &&
      ExampleDataOf(page.headings, page.examplePars).Ok? && SoundClipsOf(page.samples).Ok?
    ensures r.Ok? ==>
      && r.value.images == ImagesOf(page.imgs)
      && VariantsOf(page.headings) == Ok(r.value.variants)
      && ExampleDataOf(page.headings, page.examplePars) == Ok(ExampleData(r.value.examplesDescription, r.value.examples))
      && SoundClipsOf(page.samples) == Ok(r.value.soundClips)
    ensures r.Ok? && NamesSectionOf(page.tables).value.None? ==>
      r.value.names.None? && r.value.description.None? && r.value.construction.None? && r.value.usage.None?
    ensures r.Ok? && NamesSectionOf(page.tables).value.Some? ==>
      var s := NamesSectionOf(page.tables).value.value;
      && r.value.names == Some(s.names)
      && r.value.description == Some(s.summary.description)
      && r.value.construction == Some(s.summary.construction)
      && r.value.usage == Some(s.summary.usage)
  {
    var section :- NamesSectionOf(page.tables);
    var images := ImagesOf(page.imgs);
    var variants :- VariantsOf(page.headings);
    var exampleData :- ExampleDataOf(page.headings, page.examplePars);
    var soundClips :- SoundClipsOf(page.samples);
    match section
    case None =>
      Ok(StopRecord(None, None, None, None, images, variants, [], exampleData.description,
                    exampleData.examples, soundClips, []))
    case Some(s) =>
      NamesNonEmpty(page.tables);
      Ok(StopRecord(Some(s.names), Some(s.summary.description), Some(s.summary.construction),
                    Some(s.summary.usage), images, variants, [], exampleData.description,
                    exampleData.examples, soundClips, []))
  }

  lemma NamesNonEmpty(tables: seq<Table>)
    requires NamesSectionOf(tables).Ok? && NamesSectionOf(tables).value.Some?
    ensures NamesSectionOf(tables).value.value.names != []
  {
    CollectEvery(tables, TableEntry, HasNames);
  }

  predicate HasNames(s: NamesSection) {
    s.names != []
  }

  method ParseOldFile(page: Page) returns (r: Result<StopRecord>)
    ensures r == Record(page)
  {
    var section: Option<NamesSection> := None;
    ghost var sections: seq<NamesSection> := [];
    for i := 0 to |page.tables|
      invariant Collect(page.tables[..i], TableEntry) == Ok(sections)
      invariant section == LastOf(sections)
    {
      CollectStep(page.tables, i, TableEntry);
      var table := page.tables[i];
      var marker := GetNextComment(table.before);
      if marker == Some(NAMES) {
        var names := ExtractStopNames(table.breaks);
        if names.Err? || names.value == [] {
          CollectKeepsError(page.tables[..i + 1], page.tables[i + 1..], TableEntry);
          assert page.tables[..i + 1] + page.tables[i + 1..] == page.tables;
          return Err(if names.Err? then names.error else AssertionError("names"));
        }
        var summary := ExtractSummaryText(table.after);
        section := Some(NamesSection(names.value, summary));
        sections := sections + [section.value];
      }
    }
    assert page.tables[..|page.tables|] == page.tables;
    var images := ExtractImages(page.imgs);
    var variants := ExtractVariants(page.headings);
    if variants.Err? {
      return Err(variants.error);
    }
    var exampleData := ExtractExampleData(page.headings, page.examplePars);
    if exampleData.Err? {
      return Err(exampleData.error);
    }
    var soundClips := ExtractSoundClips(page.samples);
    if soundClips.Err? {
      return Err(soundClips.error);
    }
    if section.Some? {
      NamesNonEmpty(page.tables);
    }
    r := Ok(StopRecord(
      if section.Some? then Some(section.value.names) else None,
      if section.Some? then Some(section.value.summary.description) else None,
      if section.Some? then Some(section.value.summary.construction) else None,
      if section.Some? then Some(section.value.summary.usage) else None,
      images, variants.value, [], exampleData.value.description, exampleData.value.examples,
      soundClips.value, []));
  }

  // ---------------------------------------------------------------------------
  // Properties

  /** A page without a names table still converts, to a record without names and prose. */
  lemma NoNamesTable(page: Page)
    requires forall k :: 0 <= k < |page.tables| ==> !IsNamesTable(page.tables[k])
    ensures NamesSectionOf(page.tables) == Ok(None)
    ensures Record(page).Ok? ==> Record(page).value.names.None? && Record(page).value.description.None?
    ensures Record(page).Ok? ==> Record(page).value.construction.None? && Record(page).value.usage.None?
  {
    CollectNothing(page.tables, TableEntry);
  }

  /** Of several names tables, the last one gives the record its names and prose. */
  lemma LastNamesTableWins(tables: seq<Table>, t: Table)
    requires NamesSectionOf(tables).Ok? && TableEntry(t).Ok? && IsNamesTable(t)
    ensures NamesSectionOf(tables + [t]) == Ok(Some(NamesSection(Names(t.breaks).value, SummaryOf(t.after))))
  {
    CollectStep(tables + [t], |tables|, TableEntry);
    assert (tables + [t])[..|tables|] == tables;
    assert (tables + [t])[..|tables| + 1] == tables + [t];
  }

  /** A names table without names fails the conversion once it is reached. */
  lemma EmptyNamesTableFails(tables: seq<Table>, t: Table)
    requires NamesSectionOf(tables).Ok? && IsNamesTable(t) && Names(t.breaks) == Ok([])
    ensures NamesSectionOf(tables + [t]) == Err(AssertionError("names"))
  {
    CollectStep(tables + [t], |tables|, TableEntry);
    assert (tables + [t])[..|tables|] == tables;
    assert (tables + [t])[..|tables| + 1] == tables + [t];
  }
}
