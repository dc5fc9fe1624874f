# Organ stop converter and site builder, modelled in Dafny

The organstops.com repository turns the legacy hand-written HTML page of each
organ stop into a JSON record, then builds the new static site from those
records. This project models the core of both steps:

- **the extraction rules** of `new/converter.py`. Each rule reads one part of
  an already-parsed legacy page and returns one part of the record:
  - the stop names table, with origins, links, the primary marker and the
    ignore marker;
  - the summary prose, routed into description, construction and usage;
  - the images, the variants and the examples;
  - the sound-clip table, grouped into manual and pedal divisions.

  The errors a rule raises are modelled too: assertions, `KeyError`,
  `RuntimeError`, `IndexError`, and `AttributeError` on a missing element.
- **the batch selection** of `new/converter.py`:
  - collecting stop names from the bucket directories
    (`collect_names_with_ext`);
  - turning legacy CamelCase names into snake_case (`collect_old_stops`);
  - the legacy and new paths `convert` computes;
  - the choice and order of the stops `main` converts.
- **the site-builder helpers** of `new/compile.py`:
  - `getLetter` and `getNameURL`;
  - the choice of each record's primary name;
  - the accumulation of every record's names;
  - the page path written for each record.

BeautifulSoup's parse tree is given as values. A `Node` is a text string, a
comment or an element. An element carries its class list, its attributes, its
direct contents and its flattened descendants. Every `find_all` or sibling walk
the converter asks BeautifulSoup for arrives as a sequence. The walks the
converter writes itself are modelled as loops over those sequences:
`get_next_comment`, `get_previous_comment` and `get_next_element`. Errors are
`Result` values; an exception aborts the whole run, so a loop stops at the
first error.

Modules:
- `Results` and `Folds`: the option and result types, and the generic folds
  the loops are specified by.
- `PyText`: the Python string operations the code relies on:
  - `str.split`, `strip`, `lower` and `replace`;
  - `in`, `startswith` and `rsplit`;
  - `os.path.splitext` and `os.path.join`.
- `Dom`: the parse-tree abstraction.
- One module per extraction rule: `StopNames`, `Summaries`, `Images`,
  `Variants`, `Examples` and `SoundClips`.
- `Pages`: `parse_old_file`.
- `Batch` and `Order`: the batch selection and `sorted`.
- `Compile`: the site builder.

## Model

| member | source | states |
|---|---|---|
| PyText.Strip | new/converter.py:402-406 | `str.strip`: the result is no longer than the input, is empty exactly when the input is all whitespace, and neither starts nor ends with whitespace |
| PyText.StripLeft | new/converter.py:411-413 | the stripped suffix is the input minus a whitespace-only prefix and starts with non-whitespace |
| PyText.StripRight | new/converter.py:411-413 | the stripped prefix is the input minus a whitespace-only suffix and ends with non-whitespace |
| PyText.TakeWord | new/converter.py:292-293 | one step of `str.split()`: the longest whitespace-free prefix |
| PyText.Words | new/converter.py:292-293 | `str.split()` yields only non-empty whitespace-free words |
| PyText.Finalize | new/converter.py:292-293 | `finalize` returns text with single spaces between words and no outer whitespace, and keeps the same words in the same order as the input |
| PyText.JoinIsFinal | new/converter.py:292-293 | joining words with single spaces gives finalized text that starts and ends with a word |
| PyText.WordsOfJoin | new/converter.py:292-293 | splitting words joined by spaces gives those words back |
| PyText.StripFinal | new/converter.py:292-293 | the trailing `.strip()` of `finalize` changes nothing |
| PyText.FinalizeIdempotent | new/converter.py:292-293 | finalizing finalized text changes nothing |
| PyText.LowerChar | new/converter.py:124 | ASCII lowercasing of one character: upper-case letters move down by 32, all other characters are unchanged |
| PyText.Lower | new/converter.py:124 | `str.lower` maps every character position by position |
| PyText.Replace | new/converter.py:361 | `str.replace` of one character replaces exactly its occurrences |
| PyText.RemoveAll | new/converter.py:536 | `''.join(s.split('_'))` leaves no underscore and never lengthens; a text without underscores is unchanged, one of only underscores becomes empty |
| PyText.RemoveAllAppend | new/converter.py:536 | removing underscores distributes over concatenation |
| PyText.RemoveAllFirst | new/converter.py:536 | the first character of the result is the first character other than the removed one |
| PyText.LastIndex | new/converter.py:249 | the last position of a character, or none when it does not occur |
| PyText.LastSegment | new/converter.py:249 | `rsplit('/', 1)[-1]` is the suffix after the last slash and holds no slash |
| PyText.SecondToLastSegment | new/converter.py:80 | `rsplit('/', 2)[-2]` fails with IndexError exactly when there is no slash; otherwise it is the segment before the last slash |
| PyText.SplitExt | new/converter.py:430 | `os.path.splitext`: stem plus extension is the input. The extension starts exactly at the last `.` of the last path component when something other than dots precedes it there, and is empty when no such `.` exists |
| PyText.PathJoin | new/converter.py:538-543 | `os.path.join`: an absolute second part replaces the first; otherwise the parts are joined directly when the first is empty or ends in `/`, and with one `/` between them when not |
| Dom.Href | new/converter.py:398 | `tag['href']` succeeds exactly when the attribute exists; otherwise KeyError |
| Dom.NextElement | new/converter.py:216-221 | `get_next_element`: the first sibling that is not a line-break string; every sibling skipped was one |
| Dom.GetNextElement | new/converter.py:216-221 | the loop returns the position `NextElement` specifies |
| Dom.NextCommentAt | new/converter.py:53-72 | `get_next_comment` and `get_previous_comment`: a comment reached across text nodes only; none when an element comes first |
| Dom.GetNextComment | new/converter.py:53-61 | the loop returns the comment `NextCommentAt` specifies |
| StopNames.ReadTrailingText | new/converter.py:387-393 | the backward loop collects the trailing run of strings of the name holder |
| StopNames.TrailingTextWithoutTags | new/converter.py:389-393 | with no tag among the descendants, the trailing text is all their text |
| StopNames.TrailingTextAfterTag | new/converter.py:389-393 | the text before the last tag never reaches the name |
| StopNames.ReduceLink | new/converter.py:399-400 | a link containing `../` becomes its last `/` segment, which is strictly shorter and holds no slash; any other link is kept whole |
| StopNames.Link | new/converter.py:395-400 | the only possible error is KeyError('href'); with no anchor the link is "" |
| StopNames.ReadLink | new/converter.py:395-400 | the forward loop computes `Link` |
| StopNames.LinkKeepsError | new/converter.py:396-398 | an anchor without an href aborts the entry whatever follows |
| StopNames.LinkIsLastAnchor | new/converter.py:396-400 | when every anchor has an href, the link is the reduced href of the last anchor |
| StopNames.LinkDefined | new/converter.py:396-398 | when every anchor has an href, the link is defined |
| StopNames.Origin | new/converter.py:377-408 | the origin is non-empty and stripped; it is "Unknown" exactly when absent, blank, "(unknown)" or "Unknown", and otherwise the stripped text |
| StopNames.CleanName | new/converter.py:411-413 | the name is stripped; when the stripped text starts with an apostrophe, it is dropped and the rest stripped again; otherwise the stripped text is the result |
| StopNames.NameEntry | new/converter.py:374-415 | an entry is dropped exactly when IGNORE follows the `br`. A holder that is not an element gives AttributeError; a missing href gives KeyError; a blank name fails the assertion. Otherwise the entry carries the cleaned trailing text, the origin, the link, and primary exactly when PRIMARY follows |
| StopNames.ReadEntry | new/converter.py:374-415 | the loop body computes `NameEntry` |
| StopNames.Names | new/converter.py:369-417 | never more names than line breaks |
| StopNames.ExtractStopNames | new/converter.py:369-417 | the loop over the `br` tags computes `Names` |
| StopNames.NamesFollowBreaks | new/converter.py:373-415 | one name per non-ignored `br`, in order, each the entry of its `br` |
| StopNames.NamesAppend | new/converter.py:373-417 | names of two runs of line breaks concatenate |
| StopNames.NamesStopAtError | new/converter.py:373-417 | the first failing entry decides the result |
| StopNames.EntriesWellFormed | new/converter.py:403-415 | every extracted name and origin is stripped, and every origin is non-empty |
| StopNames.EntryDefined | new/converter.py:374-415 | under the conditions the code checks, the entry is exactly the cleaned name, origin, link and primary flag |
| StopNames.TwoPrimaries | new/converter.py:410 | two entries followed by PRIMARY both come out primary: nothing enforces a single primary |
| StopNames.LoneApostrophe | new/converter.py:402-413 | a name that is only an apostrophe passes the assertion and comes out empty |
| Summaries.SplitSummary | new/converter.py:336-366 | all three routed fields are finalized text |
| Summaries.RoutedStep | new/converter.py:338-361 | one fragment either switches the current field or is appended, newlines turned to spaces, to the current field only |
| Summaries.SplitFragments | new/converter.py:336-366 | the routing loop computes `SplitSummary` |
| Summaries.NextP | new/converter.py:298 | `find_next_sibling('p')`: the first following `p`, with none before it |
| Summaries.StartParagraph | new/converter.py:298-317 | the summary starts at the first `p` that is neither NotDone nor an image's closing tag; every earlier `p` was skipped |
| Summaries.StartStep | new/converter.py:305-317 | one iteration of the start search: skip the paragraph or stop at it |
| Summaries.FindStart | new/converter.py:298-317 | the loop computes `StartParagraph` |
| Summaries.GatherText | new/converter.py:328-334 | the strings of the start paragraph, then of each following `p` or `blockquote` up to one holding a "FOOTER" child |
| Summaries.SummaryOf | new/converter.py:296-366 | the summary's three fields are finalized text |
| Summaries.ExtractSummaryText | new/converter.py:296-366 | the method computes `SummaryOf` |
| Summaries.NoStartParagraph | new/converter.py:301-303 | with no usable paragraph the summary is empty |
| Summaries.RoutedWithoutHeadings | new/converter.py:336-361 | without heading tokens everything goes to the description |
| Summaries.RoutedSnoc | new/converter.py:338-361 | the effect of one more fragment on the current field and on each field |
| Summaries.FieldKept | new/converter.py:350-361 | fragments without heading tokens keep the current field |
| Summaries.RoutedToCurrent | new/converter.py:360-361 | fragments without heading tokens are appended to the current field |
| Summaries.RoutedElsewhere | new/converter.py:350-361 | fragments without heading tokens leave the other fields alone |
| Summaries.RoutedAfterHeading | new/converter.py:350-358 | after "Construction", "Usage" or "Tonal Attributes", the following text goes to that field and only that field |
| Summaries.StopCutsOff | new/converter.py:339-348 | nothing after a stop fragment reaches the summary |
| Summaries.StopFirst | new/converter.py:339-348 | a stop fragment first gives the empty summary |
| Images.ImageEntry | new/converter.py:232-236 | every image except a Sponsor image gives its `src` and an empty subtitle |
| Images.ImagesOf | new/converter.py:229-238 | one image per non-Sponsor `img`, in document order, each with that tag's `src` (absent when it has none) and an empty subtitle |
| Images.ExtractImages | new/converter.py:229-238 | the loop computes `ImagesOf` |
| Images.ImagesAppend | new/converter.py:231-236 | images of two runs of tags concatenate |
| Variants.PageOf | new/converter.py:249-252 | the link is a prefix of the href's last path segment, cut exactly where `splitext` starts an extension, and the whole segment when it has none; it holds no slash |
| Variants.AnchorVariant | new/converter.py:247-253 | an anchor in a variants table gives its finalized text and page, or KeyError without an href; anything else gives nothing |
| Variants.ElementVariants | new/converter.py:246-268 | a table gives its anchors; an anchor gives itself; a paragraph gives nothing; anything else raises RuntimeError naming the element |
| Variants.VariantsAt | new/converter.py:244-268 | only a "Variants" heading contributes, through its next element; AttributeError when there is none |
| Variants.ExtractVariants | new/converter.py:241-270 | the heading loop computes `FlatCollect` over `VariantsAt` |
| Variants.ReadVariantsAt | new/converter.py:244-268 | the loop body, including the inner loop over table descendants, computes `VariantsAt` |
| Variants.VariantsAppend | new/converter.py:243-270 | variants of two runs of headings concatenate |
| Variants.TableVariants | new/converter.py:246-253 | one variant per anchor, in order, named and linked by that anchor |
| Variants.AnchorLinksAreNames | new/converter.py:249-252 | a variant from an anchor links to a page name |
| Variants.ElementLinksAreNames | new/converter.py:246-259 | every variant from one element links to a page name |
| Variants.LinksAreNames | new/converter.py:241-270 | no variant link holds a slash |
| Examples.AllExamples | new/converter.py:198-202 | one example per `p.example`, in order, with finalized text and an empty link |
| Examples.DropBibliography | new/converter.py:204-208 | the last example is dropped exactly when its name contains "Bibliography" |
| Examples.ExamplesAt | new/converter.py:186-210 | AttributeError when nothing follows the heading; a non-`p` element gives the empty data; a `p` or a string gives its finalized text as description, with the example list |
| Examples.ExampleDataOf | new/converter.py:184-213 | the first "Examples" heading decides; with none, the empty data |
| Examples.ExtractExampleData | new/converter.py:184-213 | the loop computes `ExampleDataOf` |
| Examples.FirstHeadingDecides | new/converter.py:185-210 | later headings never matter |
| Examples.BibliographyDropped | new/converter.py:204-208 | a trailing paragraph running into the bibliography is discarded |
| SoundClips.FirstAnchor | new/converter.py:77-81 | the first anchor among the descendants |
| SoundClips.Required | new/converter.py:84-85 | with `require`, a path that is absent or empty fails the assertion; otherwise the path is returned as found |
| SoundClips.PathFromLink | new/converter.py:75-86 | without an anchor: none, or the failed assertion when a path is required. With one, KeyError when the first anchor has no href; otherwise its last segment, or its second-to-last with IndexError when the href has no `/`. A required path that is empty fails the assertion |
| SoundClips.OrganLinkSegment | new/converter.py:109-113 | the organ link is the second-to-last segment of the href |
| SoundClips.LabelText | new/converter.py:124 | each character is lowercased, and a non-breaking space becomes a plain space; the length is kept |
| SoundClips.ClipLabel | new/converter.py:128-161 | the label is canonical exactly for the listed texts; text containing "see" is skipped; anything else is unrecognised |
| SoundClips.CanonicalNamesStable | new/converter.py:126-159 | every canonical name a listed label maps to, read back as a label, gives itself |
| SoundClips.TremoloMerged | new/converter.py:149-151 | "tremolo" and "trem." name the same clip |
| SoundClips.PassThroughLabels | new/converter.py:153-154 | the two pass-through labels keep their text |
| SoundClips.FileOf | new/converter.py:122-167 | a blank cell, or a label that refers elsewhere, gives no file. A listed label gives a file with its canonical name and the last segment of the cell's first link, or the error of reading that link. An unknown label raises RuntimeError quoting the cell text |
| SoundClips.ClipOf | new/converter.py:102-167 | the name is set exactly when there is a first cell; the organ link and organ name exactly when there is a second; the builder exactly when there is a third; never more files than cells |
| SoundClips.ClipKeepsError | new/converter.py:104-167 | a failing cell aborts the clip whatever follows |
| SoundClips.FilesOf | new/converter.py:122-167 | never more files than cells |
| SoundClips.FilesStep | new/converter.py:122-167 | each later cell adds its file, nothing, or the error |
| SoundClips.ClipStep | new/converter.py:104-167 | one cell of the row updates the clip as its column says |
| SoundClips.NameStep | new/converter.py:105-106 | column 0 sets the finalized name |
| SoundClips.OrganStep | new/converter.py:108-117 | column 1 sets the organ link, or "", and the organ name |
| SoundClips.BuilderStep | new/converter.py:119-120 | column 2 sets the builder |
| SoundClips.FileStep | new/converter.py:122-167 | columns from 3 on append files |
| SoundClips.BuildClip | new/converter.py:102-167 | the cell loop computes `ClipOf` |
| SoundClips.Flush | new/converter.py:174-180 | the current division is appended exactly when it has clips |
| SoundClips.HeaderName | new/converter.py:172-173 | a header row succeeds exactly when its first word is "Manual" or "Pedal"; IndexError on an empty row |
| SoundClips.SoundClipsOf | new/converter.py:89-93 | no samples table gives no divisions |
| SoundClips.ExtractSoundClips | new/converter.py:89-181 | the row loop computes `SoundClipsOf` |
| SoundClips.RowStepWellGrouped | new/converter.py:101-177 | each row keeps the grouping well formed |
| SoundClips.GroupWellGrouped | new/converter.py:101-177 | the whole loop keeps it well formed |
| SoundClips.DivisionsWellFormed | new/converter.py:174-181 | every division has clips, and every division after the first is named Manual or Pedal |
| SoundClips.AllClipsFlush | new/converter.py:174-180 | flushing loses no clip |
| SoundClips.GroupCollects | new/converter.py:101-180 | the grouping holds every clip row's clip, in order |
| SoundClips.ClipsFollowRows | new/converter.py:101-181 | the divisions hold exactly one clip per `samples` row, in order |
| SoundClips.RowStepFails | new/converter.py:101-177 | a row fails exactly when it is bad, with its own error |
| SoundClips.FailsAtFirstBadRow | new/converter.py:101-177 | the table fails exactly when some row is bad, with the first bad row's error |
| SoundClips.BadHeaderFails | new/converter.py:171-173 | a header other than Manual or Pedal fails the assertion |
| Pages.TableEntry | new/converter.py:465-481 | only a table whose previous comment is NAMES contributes, with its names and the summary after it; an empty name list fails the assertion |
| Pages.NamesNonEmpty | new/converter.py:467 | a recorded names section is never empty |
| Pages.Record | new/converter.py:454-518 | comparisons and bibliography are empty. Names and the three prose fields come from the last NAMES table, and all four are absent without one. It succeeds exactly when every extractor does, and each other field is what its extractor returns |
| Pages.ParseOldFile | new/converter.py:454-518 | the method computes `Record` |
| Pages.NoNamesTable | new/converter.py:463-481 | without a NAMES table the record has no names and no prose fields |
| Pages.LastNamesTableWins | new/converter.py:464-481 | a later NAMES table overrides an earlier one |
| Pages.EmptyNamesTableFails | new/converter.py:466-467 | a NAMES table with no names fails the assertion |
| Batch.SubstringIsRun | new/converter.py:424 | a substring of the alphabet is a run of consecutive lowercase letters |
| Batch.RunIsSubstring | new/converter.py:424 | a run of consecutive lowercase letters is a substring of the alphabet |
| Batch.RunsOf | new/converter.py:424 | for any string spelling the alphabet, being a substring and being a letter run coincide |
| Batch.BucketNames | new/converter.py:424 | `sub_dir in string.ascii_lowercase` accepts exactly the runs of consecutive letters, the empty name included |
| Batch.AcceptedStem | new/converter.py:427-432 | an accepted file's stem is non-empty, does not start with `_` or `.`, is not skipped, and with the extension gives back the file name |
| Batch.ListingNamesAre | new/converter.py:426-432 | a name is collected from a listing exactly when some accepted file has it as stem |
| Batch.SubDirNamesAre | new/converter.py:423-432 | a name is collected from a step exactly when some bucket directory lists it |
| Batch.WalkNamesAre | new/converter.py:422-432 | a name is collected from the walk exactly when some step gives it |
| Batch.CollectedNames | new/converter.py:420-434 | every collected name is non-empty, not hidden, not skipped, and listed with the extension in some bucket directory |
| Batch.SkippedNeverCollected | new/converter.py:427-431 | a skipped or hidden name is never collected |
| Batch.CollectNamesWithExt | new/converter.py:420-434 | the nested loops compute `WalkNames` |
| Batch.CamelToSnake | new/converter.py:439-445 | an underscore precedes every capital after the first character; for a name without underscores, every underscore precedes a capital and none leads |
| Batch.UnderscoreCapsShape | new/converter.py:439 | the regular expression marks every capital after the start |
| Batch.SnakeRoundTrip | new/converter.py:439-445 | removing the inserted underscores gives back a name without underscores |
| Batch.UnderscoreRoundTrip | new/converter.py:439 | removing underscores undoes the insertion |
| Batch.Slug | new/converter.py:442-445 | a name with an underscore is kept; any other loses only the added underscores |
| Batch.SnakeRoundTripIfPlain | new/converter.py:442-445 | the round trip holds for every name without underscores |
| Batch.NoCapsUnchanged | new/converter.py:439 | a name without capitals is unchanged |
| Batch.SlugIdempotent | new/converter.py:441-445 | converting a converted name changes nothing |
| Batch.CollectOldStops | new/converter.py:437-447 | the loop computes the converted names of the `.html` pages |
| Batch.OldStopsFromPages | new/converter.py:437-447 | a stop is listed exactly when some legacy page converts to it |
| Batch.OldName | new/converter.py:536 | the legacy file name is the stop with every underscore removed, then `.html` |
| Batch.Bucket | new/converter.py:538 | the bucket is the lowercased first character of the stop other than `_`, or `.` when the stop is only underscores |
| Batch.Convert | new/converter.py:535-543 | the legacy path joins the old directory, the bucket and the underscore-free name when that file exists, else the stop name with `.html`; the new path joins the new directory, the bucket and the stop name with `.json` |
| Batch.ConvertFindsPage | new/converter.py:536-539 | for a legacy page without underscores, the computed legacy path is the page that was collected |
| Batch.WrittenStem | new/converter.py:543 | `splitext` of the `.json` file written for a stop gives back the stop and `.json` |
| Batch.ListedCollected | new/converter.py:420-434 | an accepted file listed in a bucket directory is collected under its stem |
| Batch.WrittenCollected | new/converter.py:420-434 | a stop written as `<stop>.json` in a listed letter bucket named by `Bucket`, neither hidden-looking nor skipped, is collected back by the next run |
| Batch.NonLetterBucket | new/converter.py:538 | a stop whose first character other than `_` is not a letter gets a bucket that the walk's bucket test rejects |
| Batch.LastIndexSkips | new/converter.py:430 | appending text without the character keeps its last position |
| Batch.ToConvert | new/converter.py:554-560 | with rewrite, every stop; otherwise exactly the stops not yet converted |
| Batch.SelectStops | new/converter.py:550-563 | the order is ascending and holds exactly the stops to convert |
| Batch.PlanConversion | new/converter.py:550-564 | one job per stop to convert, in ascending order, each the `convert` paths of its stop |
| Batch.ConvertAll | new/converter.py:563-564 | one job per stop, in the given order |
| Batch.RewriteConvertsAll | new/converter.py:554-560 | rewrite converts everything, a superset of the default |
| Order.LessIrreflexive | new/converter.py:563 | string order is irreflexive |
| Order.LessTransitive | new/converter.py:563 | string order is transitive |
| Order.LessTotal | new/converter.py:563 | string order is total on distinct strings |
| Order.Insert | new/converter.py:563 | insertion adds exactly one element |
| Order.InsertAscending | new/converter.py:563 | insertion keeps a list ascending |
| Order.Sort | new/converter.py:563 | `sorted(list(s))`: ascending, with exactly the set's elements, once each |
| Order.AscendingUnique | new/converter.py:563 | the sorted order of a set is unique |
| Compile.GetLetter | new/compile.py:6-7 | the lowercased first character; IndexError exactly on the empty name |
| Compile.GetNameURL | new/compile.py:9-10 | spaces become underscores; nothing else changes |
| Compile.GetNameURLIdempotent | new/compile.py:9-10 | a URL name is its own URL name |
| Compile.GetNameURLMerges | new/compile.py:9-10 | names differing only in spaces versus underscores share a URL |
| Compile.PrimaryName | new/compile.py:34-35 | the name of the first primary entry; StopIteration exactly when none is primary |
| Compile.FirstPrimaryWins | new/compile.py:34-35 | later primaries are ignored |
| Compile.NamesOf | new/compile.py:33 | `data['names']` fails with KeyError exactly when the record has no names |
| Compile.PageOf | new/compile.py:33-41 | the page is named after the primary name, filed under its letter, at `build/<letter>/<nameURL>.html`. It exists exactly when the record has names with a non-empty primary one: KeyError without names, StopIteration without a primary, IndexError for an empty primary name |
| Compile.AllNamesStep | new/compile.py:33 | each record adds its names in order |
| Compile.AllNamesAppend | new/compile.py:27-33 | the names of two runs of records concatenate |
| Compile.DuplicatesKept | new/compile.py:33 | the accumulated names are not de-duplicated |
| Compile.SitePages | new/compile.py:29-41 | one page per record, in walk order, each its `PageOf` |
| Compile.BuildSite | new/compile.py:27-43 | the loop computes the names and pages of `SiteOf` |

## Behaviour of the code worth noting

- Names table: the code loops over every table, and a later NAMES table
  overrides an earlier one (`Pages.LastNamesTableWins`).
- Name accumulation: `names.extend` keeps duplicates
  (`Compile.DuplicatesKept`).
- Aborting: nothing in `main` catches an exception, so the first failure ends
  the run, and every loop is modelled as stopping at its first error.
- Buckets: `sub_dir in string.ascii_lowercase` is a substring test, so it
  accepts runs such as `abc` and the empty name as well as single letters
  (`Batch.BucketNames`).

## Left out

- BeautifulSoup parsing and navigation: the parse tree, the results of
  `find_all` and the sibling lists are given as values. `.text` is the
  concatenation of the non-comment strings, and `find_all(text=True)` includes
  comments.
- `str.lower` is modelled for ASCII letters only, since every label it is
  compared with is ASCII; `str.split` and `str.strip` use Python's full set of
  whitespace characters.
- File system:
  - `os.walk` and `os.listdir` arrive as a list of walk steps;
  - the `os.path.exists` test of `convert` arrives as a set of existing paths;
  - opening and reading files, JSON encoding and decoding, `mkdir`, `shutil`
    and the Jinja templates are not modelled.
- `write_new_file` and the dry-run flag: only I/O and logging.
- `convert` is modelled as the paths it computes. Reading the legacy page is
  `Pages.Record` on an already-parsed page, and the two are not chained into
  one run.
- Logging, the command-line parsing after `main`, and `collect_converted_stops`
  beyond its call of `collect_names_with_ext`.
- `extract_comparisons` and `extract_bibliography` always return an empty
  list, and the record carries them as empty lists.
- `parse_old_file` calls `extract_example_data` twice. The extraction is pure,
  so the model calls it once.
- new/import.py is not part of this model.
- Compile.BuildSite: `names.extend` runs before `next(...)` picks the primary
  name. Since any exception ends the build, the model only states the names
  of a successful build.
- SoundClips.ClipOf: its own contract states which keys are set; what each
  cell writes is stated by `SoundClips.ClipStep` and its four column lemmas.
- StopNames.Names and SoundClips.FilesOf: their own contracts only bound the
  length; the contents are stated by `StopNames.NamesFollowBreaks` and
  `SoundClips.FilesStep`.
- WrittenStem: it states only what `splitext` gives back. Whether the next
  run collects the record depends on where it is written: `WrittenCollected`
  covers a letter bucket, and `NonLetterBucket` shows that a stop starting
  with a digit or other non-letter is written under a bucket the walk never
  reads.
