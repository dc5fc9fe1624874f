/**
 * `extract_sound_clips` (new/converter.py:89-181) and
 * `extract_path_from_descendant_link` (new/converter.py:75-86): the rows of the
 * samples table, folded into divisions. A row of class `samples` is one clip;
 * any other row is a division header naming the manual or the pedal. A
 * division is written out only once it holds a clip.
 */
module SoundClips {
  import opened Results
  import opened PyText
  import opened Dom
  import opened Folds

  const SAMPLES := "samples"
  const MANUAL := "Manual"
  const PEDAL := "Pedal"

  // ---------------------------------------------------------------------------
  // Links inside a cell

  /** Which `/` segment of the first anchor's href is wanted: `rsplit('/', 1)[-1]` or `rsplit('/', 2)[-2]`. */
  datatype Segment = Last | SecondToLast

  /** The position of the first anchor among a cell's descendants (strings have no name, so never match). */
  function FirstAnchor(ds: seq<Desc>): (r: Option<nat>)
    ensures r.Some? ==> r.value < |ds| && IsAnchor(ds[r.value])
    ensures forall k :: 0 <= k < |ds| && (r.None? || k < r.value) ==> !IsAnchor(ds[k])
  {
    if ds == [] then None
    else if IsAnchor(ds[0]) then Some(0)
    else match FirstAnchor(ds[1..])
      case None => None
      case Some(k) => Some(k + 1)
  }

  function DescendantsOf(n: Node): seq<Desc> {
    if n.Element? then n.descendants else []
  }

  /** With `require`, an absent or empty path fails the assertion; otherwise the path stands. */
  function Required(path: Option<string>, require: bool): (r: Result<Option<string>>)
    ensures r.Err? <==> require && (path.None? || path.value == [])
    ensures r.Err? ==> r.error == AssertionError("path")
    ensures r.Ok? ==> r.value == path
  {
    if require && (path.None? || path.value == []) then Err(AssertionError("path")) else Ok(path)
  }

  /**
   * `extract_path_from_descendant_link`: the wanted segment of the first
   * anchor's href, `None` without an anchor. A missing href raises KeyError,
   * the second-to-last segment of an href without `/` raises IndexError, and
   * with `require` an absent or empty path fails the assertion.
   */
  function PathFromLink(col: Node, want: Segment, require: bool): (r: Result<Option<string>>)
    ensures r.Ok? && require ==> r.value.Some? && r.value.value != []
    ensures r.Ok? && r.value.Some? ==> '/' !in r.value.value
    ensures FirstAnchor(DescendantsOf(col)).None? ==> r == Required(None, require)
    ensures FirstAnchor(DescendantsOf(col)).Some? ==>
      var attrs := DescendantsOf(col)[FirstAnchor(DescendantsOf(col)).value].attrs;
      && ("href" !in attrs ==> r == Err(KeyError("href")))
      && ("href" in attrs && want.Last? ==> r == Required(Some(LastSegment(attrs["href"])), require))
      && ("href" in attrs && want.SecondToLast? ==>
            r == match SecondToLastSegment(attrs["href"])
                 case Err(e) => Err(e)
                 case Ok(segment) => Required(Some(segment), require))
  {
    var path :-
      match FirstAnchor(DescendantsOf(col))
      case None => Ok(None)
      case Some(k) =>
        var href :- Href(DescendantsOf(col)[k].attrs);
        match want
        case Last => Ok(Some(LastSegment(href)))
        case SecondToLast =>
          var segment :- SecondToLastSegment(href);
          Ok(Some(segment));
    Required(path, require)
  }

  /** The organ link is the second-to-last segment, not the last two: "a/b/c" gives "b". */
  lemma OrganLinkSegment()
    ensures
      var col := Element("td", [], map[], [], [DTag("a", map["href" := "a/b/c"], "")]);
      PathFromLink(col, SecondToLast, false) == Ok(Some("b"))
  {
    var s := "a/b/c";
    assert LastIndex(s, '/') == Some(3);
    assert s[..3] == "a/b";
    assert LastIndex("a/b", '/') == Some(1);
    assert "a/b"[2..] == "b";
  }

  // ---------------------------------------------------------------------------
  // Clip labels

  /** The labels a clip column may carry, lower-cased, and the name each is written out as. */
  const LABELS: map<string, string> := map[
    "arpeggio" := "Arpeggio",
    "arpeggio (16')" := "Arpeggio (16')",
    "arpeggio (trem.)" := "Arpeggio (trem.)",
    "bottom 15 notes" := "Bottom 15 notes",
    "st. anne" := "St. Anne",
    "st. anne (8va)" := "St. Anne (8va)",
    "st. anne (solo)" := "St. Anne (Solo)",
    "st. anne (trem.)" := "St. Anne (Trem.)",
    "st. anne (tremolo)" := "St. Anne (Trem.)",
    "1 & 2" := "1 & 2",
    "1 then 2 then both" := "1 then 2 then both"
  ]

  datatype Label = Canonical(name: string) | SeeElsewhere | Unrecognised

  /** The text a label is matched on: lower-cased, with no-break spaces made plain. */
  function LabelText(raw: string): (t: string)
    ensures |t| == |raw|
    ensures forall i :: 0 <= i < |t| ==> t[i] == (if raw[i] == '\U{a0}' then ' ' else LowerChar(raw[i]))
    ensures forall i :: 0 <= i < |t| ==> t[i] != '\U{a0}' && !IsAsciiUpper(t[i])
  {
    Replace(Lower(raw), '\U{a0}', ' ')
  }

  /**
   * The label mapping at new/converter.py:126-159: a listed label maps to its
   * name, any other text mentioning "see" refers elsewhere, and
   * everything else is unrecognised.
   */
  function ClipLabel(text: string): (l: Label)
    ensures l.Canonical? <==> text in LABELS
    ensures l.Canonical? ==> l.name == LABELS[text]
    ensures l.SeeElsewhere? <==> text !in LABELS && Contains(text, "see")
  {
    if text in LABELS then Canonical(LABELS[text])
    else if Contains(text, "see") then SeeElsewhere
    else Unrecognised
  }

  /**
   * The names written out are closed under the mapping: each, read back as a
   * label, is the lower-cased label it came from and gives itself again.
   */
  predicate Stable(name: string) {
    ClipLabel(LabelText(name)) == Canonical(name)
  }

  lemma ArpeggioStable()
    ensures Stable("Arpeggio")
  {
    assert LabelText("Arpeggio") == "arpeggio";
  }

  lemma Arpeggio16Stable()
    ensures Stable("Arpeggio (16')")
  {
    assert LabelText("Arpeggio (16')") == "arpeggio (16')";
  }

  lemma ArpeggioTremStable()
    ensures Stable("Arpeggio (trem.)")
  {
    assert LabelText("Arpeggio (trem.)") == "arpeggio (trem.)";
  }

  lemma BottomNotesStable()
    ensures Stable("Bottom 15 notes")
  {
    assert LabelText("Bottom 15 notes") == "bottom 15 notes";
  }

  lemma StAnneStable()
    ensures Stable("St. Anne")
  {
    assert LabelText("St. Anne") == "st. anne";
  }

  lemma StAnne8vaStable()
    ensures Stable("St. Anne (8va)")
  {
    assert LabelText("St. Anne (8va)") == "st. anne (8va)";
  }

  lemma StAnneSoloStable()
    ensures Stable("St. Anne (Solo)")
  {
    assert LabelText("St. Anne (Solo)") == "st. anne (solo)";
  }

  lemma StAnneTremStable()
    ensures Stable("St. Anne (Trem.)")
  {
    assert LabelText("St. Anne (Trem.)") == "st. anne (trem.)";
  }

  lemma OneAndTwoStable()
    ensures Stable("1 & 2")
  {
    assert LabelText("1 & 2") == "1 & 2";
  }

  lemma OneThenTwoStable()
    ensures Stable("1 then 2 then both")
  {
    assert LabelText("1 then 2 then both") == "1 then 2 then both";
  }

  /** The name one listed label maps to reads back as itself. */
  lemma KeyStable(t: string)
    requires t in LABELS
    ensures Stable(LABELS[t])
  {
    if t == "arpeggio" {
      ArpeggioStable();
    } else if t == "arpeggio (16')" {
      Arpeggio16Stable();
    } else if t == "arpeggio (trem.)" {
      ArpeggioTremStable();
    } else if t == "bottom 15 notes" {
      BottomNotesStable();
    } else if t == "st. anne" {
      StAnneStable();
    } else if t == "st. anne (8va)" {
      StAnne8vaStable();
    } else if t == "st. anne (solo)" {
      StAnneSoloStable();
    } else if t == "st. anne (trem.)" {
      StAnneTremStable();
    } else if t == "st. anne (tremolo)" {
      StAnneTremStable();
    } else if t == "1 & 2" {
      OneAndTwoStable();
    } else {
      OneThenTwoStable();
    }
  }

  /** Every name a listed label maps to is itself read back as that name. */
  lemma CanonicalNamesStable()
    ensures forall t :: t in LABELS ==> Stable(LABELS[t])
  {
    forall t | t in LABELS {
      KeyStable(t);
    }
  }

  /** "st. anne (tremolo)" and "st. anne (trem.)" give the same name. */
  lemma TremoloMerged()
    ensures ClipLabel("st. anne (tremolo)") == ClipLabel("st. anne (trem.)")
  {
  }

  /** The two sequence labels pass through unchanged. */
  lemma PassThroughLabels()
    ensures LabelText("1 & 2") == "1 & 2" && ClipLabel("1 & 2") == Canonical("1 & 2")
    ensures LabelText("1 then 2 then both") == "1 then 2 then both" && ClipLabel("1 then 2 then both") == Canonical("1 then 2 then both")
  {
  }

  // ---------------------------------------------------------------------------
  // One clip

  datatype ClipFile = ClipFile(name: string, file: string)

  /** A clip as the row writes it; a key is absent when the row has too few cells. */
  datatype Clip = Clip(
    name: Option<string>,
    organLink: Option<string>,
    organName: Option<string>,
    organBuilderName: Option<string>,
    files: seq<ClipFile>)

  /**
   * A clip column (the fourth and later cells): blank cells and cross-references
   * elsewhere give nothing, a listed label gives a file named by the label,
   * and other text raises RuntimeError.
   */
  function FileOf(col: Node): (r: Result<Option<ClipFile>>)
    ensures Blank(GetText(col)) ==> r == Ok(None)
    ensures r.Ok? && r.value.Some? ==>
      LabelText(GetText(col)) in LABELS && r.value.value.name == LABELS[LabelText(GetText(col))] &&
      r.value.value.file != [] && '/' !in r.value.value.file
    ensures !Blank(GetText(col)) && ClipLabel(LabelText(GetText(col))).Unrecognised? ==>
      r == Err(RuntimeError("unknown clip name: " + GetText(col)))
    ensures !Blank(GetText(col)) && ClipLabel(LabelText(GetText(col))).SeeElsewhere? ==> r == Ok(None)
    ensures !Blank(GetText(col)) && ClipLabel(LabelText(GetText(col))).Canonical? ==>
      var path := PathFromLink(col, Last, true);
      r == if path.Ok? then Ok(Some(ClipFile(ClipLabel(LabelText(GetText(col))).name, path.value.value)))
           else Err(path.error)
  {
    var text := GetText(col);
    if Blank(text) then Ok(None)
    else
      match ClipLabel(LabelText(text))
      case SeeElsewhere => Ok(None)
      case Unrecognised => Err(RuntimeError("unknown clip name: " + text))
      case Canonical(name) =>
        var path :- PathFromLink(col, Last, true);
        Ok(Some(ClipFile(name, path.value)))
  }

  /** The organ link of the second cell: the path when there is a non-empty one, "" otherwise. */
  function OrganLink(col: Node): Result<string> {
    var link :- PathFromLink(col, SecondToLast, false);
    Ok(if link.Some? then link.value else "")
  }

  function OrganLinkOf(cells: seq<Node>): Result<Option<string>> {
    if |cells| > 1 then
      var link :- OrganLink(cells[1]);
      Ok(Some(link))
    else Ok(None)
  }

  function CellText(cells: seq<Node>, k: nat): Option<string> {
    if k < |cells| then Some(Finalize(GetText(cells[k]))) else None
  }

  /**
   * The clip of a `samples` row (new/converter.py:115-169): the first three
   * cells give its name, organ and builder, and every later cell may add a
   * file. The only exceptions come from the organ link and the clip columns,
   * in column order.
   */
  function ClipOf(cells: seq<Node>): (r: Result<Clip>)
    ensures r.Ok? ==> (r.value.name.Some? <==> |cells| > 0)
    ensures r.Ok? ==> (r.value.organLink.Some? <==> |cells| > 1) && (r.value.organName.Some? <==> |cells| > 1)
    ensures r.Ok? ==> (r.value.organBuilderName.Some? <==> |cells| > 2)
    ensures r.Ok? ==> |r.value.files| <= |cells|
  {
    var organLink :- OrganLinkOf(cells);
    var files :- FilesOf(cells);
    Ok(Clip(CellText(cells, 0), organLink, CellText(cells, 1), CellText(cells, 2), files))
  }

  /** Once a cell has raised, the cells after it do not matter. */
  lemma ClipKeepsError(cells: seq<Node>, i: nat)
    requires i <= |cells| && ClipOf(cells[..i]).Err?
    ensures ClipOf(cells) == ClipOf(cells[..i])
  {
    var p := cells[..i];
    if OrganLinkOf(p).Err? {
      assert p[1] == cells[1];
    } else {
      assert OrganLinkOf(cells) == OrganLinkOf(p) by {
        if |p| > 1 {
          assert p[1] == cells[1];
        }
      }
      SliceSplit(cells, 3, i);
      CollectKeepsError(cells[3..i], cells[i..], FileOf);
      assert FilesOf(cells) == FilesOf(p);
    }
  }

  /** What column `ix` does to the clip built from the columns before it. */
  function CellStep(clip: Clip, ix: nat, col: Node): Result<Clip> {
    if ix == 0 then Ok(clip.(name := Some(Finalize(GetText(col)))))
    else if ix == 1 then
      var link :- OrganLink(col);
      Ok(clip.(organLink := Some(link), organName := Some(Finalize(GetText(col)))))
    else if ix == 2 then Ok(clip.(organBuilderName := Some(Finalize(GetText(col)))))
    else
      var file :- FileOf(col);
      Ok(if file.Some? then clip.(files := clip.files + [file.value]) else clip)
  }

  /** The files of the clip columns, in column order. */
  function FilesOf(cells: seq<Node>): (r: Result<seq<ClipFile>>)
    ensures r.Ok? ==> |r.value| <= |cells|
  {
    if |cells| > 3 then Collect(cells[3..], FileOf) else Ok([])
  }

  lemma FilesStep(cells: seq<Node>, ix: nat)
    requires 3 <= ix < |cells|
    ensures FilesOf(cells[..ix + 1]) ==
      match FilesOf(cells[..ix])
      case Err(e) => Err(e)
      case Ok(fs) =>
        match FileOf(cells[ix])
        case Err(e) => Err(e)
        case Ok(None) => Ok(fs)
        case Ok(Some(t)) => Ok(fs + [t])
  {
    assert cells[..ix + 1][3..] == cells[3..ix + 1];
    assert cells[..ix][3..] == cells[3..ix];
    assert cells[3..3] == [];
    CollectSliceStep(cells, 3, ix, FileOf);
  }

  /** Building the clip column by column agrees with reading each column for its own key. */
  lemma ClipStep(cells: seq<Node>, ix: nat)
    requires ix < |cells| && ClipOf(cells[..ix]).Ok?
    ensures ClipOf(cells[..ix + 1]) == CellStep(ClipOf(cells[..ix]).value, ix, cells[ix])
  {
    if ix == 0 {
      NameStep(cells, ix);
    } else if ix == 1 {
      OrganStep(cells, ix);
    } else if ix == 2 {
      BuilderStep(cells, ix);
    } else {
      FileStep(cells, ix);
    }
  }

  lemma NameStep(cells: seq<Node>, ix: nat)
    requires ix == 0 < |cells|
    ensures ClipOf(cells[..ix + 1]) == CellStep(ClipOf(cells[..ix]).value, ix, cells[ix])
  {
    assert cells[..1][0] == cells[0];
  }

  lemma OrganStep(cells: seq<Node>, ix: nat)
    requires ix == 1 < |cells| && ClipOf(cells[..ix]).Ok?
    ensures ClipOf(cells[..ix + 1]) == CellStep(ClipOf(cells[..ix]).value, ix, cells[ix])
  {
    var p, q := cells[..2], cells[..1];
    assert p[0] == q[0] && p[1] == cells[1];
    assert CellText(p, 0) == CellText(q, 0);
    assert FilesOf(p) == Ok([]) && FilesOf(q) == Ok([]);
    var clip := Clip(CellText(q, 0), None, None, None, []);
    assert ClipOf(q) == Ok(clip);
    match OrganLink(cells[1])
    case Err(e) =>
      assert OrganLinkOf(p) == Err(e);
    case Ok(link) =>
      assert OrganLinkOf(p) == Ok(Some(link));
      assert ClipOf(p) == Ok(clip.(organLink := Some(link), organName := CellText(p, 1)));
  }

  lemma BuilderStep(cells: seq<Node>, ix: nat)
    requires ix == 2 < |cells| && ClipOf(cells[..ix]).Ok?
    ensures ClipOf(cells[..ix + 1]) == CellStep(ClipOf(cells[..ix]).value, ix, cells[ix])
  {
    var p, q := cells[..3], cells[..2];
    assert p[0] == q[0] && p[1] == q[1] && p[2] == cells[2];
    assert OrganLinkOf(p) == OrganLinkOf(q);
    assert FilesOf(p) == Ok([]) && FilesOf(q) == Ok([]);
    var clip := ClipOf(q).value;
    assert clip == Clip(CellText(q, 0), clip.organLink, CellText(q, 1), None, []);
    assert ClipOf(p) == Ok(clip.(organBuilderName := CellText(p, 2)));
  }

  lemma FileStep(cells: seq<Node>, ix: nat)
    requires 3 <= ix < |cells| && ClipOf(cells[..ix]).Ok?
    ensures ClipOf(cells[..ix + 1]) == CellStep(ClipOf(cells[..ix]).value, ix, cells[ix])
  {
    var p, q := cells[..ix + 1], cells[..ix];
    PrefixStep(cells, ix);
    assert p[0] == q[0] && p[1] == q[1] && p[2] == q[2];
    assert OrganLinkOf(p) == OrganLinkOf(q);
    FilesStep(cells, ix);
  }

  /** The cell loop at new/converter.py:116-167, filling in the clip column by column. */
  method BuildClip(cells: seq<Node>) returns (r: Result<Clip>)
    ensures r == ClipOf(cells)
  {
    var clip := Clip(None, None, None, None, []);
    for ix := 0 to |cells|
      invariant ClipOf(cells[..ix]) == Ok(clip)
    {
      ClipStep(cells, ix);
      var col := cells[ix];
      if ix == 0 {
        clip := clip.(name := Some(Finalize(GetText(col))));
      } else if ix == 1 {
        var link := PathFromLink(col, SecondToLast, false);
        if link.Err? {
          ClipKeepsError(cells, ix + 1);
          return Err(link.error);
        }
        clip := clip.(organLink := Some(if link.value.Some? then link.value.value else ""));
        clip := clip.(organName := Some(Finalize(GetText(col))));
      } else if ix == 2 {
        clip := clip.(organBuilderName := Some(Finalize(GetText(col))));
      } else {
        var file := FileOf(col);
        if file.Err? {
          ClipKeepsError(cells, ix + 1);
          return Err(file.error);
        }
        if file.value.Some? {
          clip := clip.(files := clip.files + [file.value.value]);
        }
      }
    }
    SplitAt(cells, |cells|);
    r := Ok(clip);
  }

  // ---------------------------------------------------------------------------
  // Rows and divisions

  /** A table row: the `tr` element and its `td` cells. */
  datatype Row = Row(tr: Node, cells: seq<Node>)

  datatype Division = Division(divisionName: string, clips: seq<Clip>)

  /** The grouper's state: the divisions written out so far and the one being filled. */
  datatype Grouping = Grouping(done: seq<Division>, current: Division)

  const START := Grouping([], Division("", []))

  predicate IsSamplesRow(row: Row) {
    SAMPLES in ClassesOf(row.tr)
  }

  /** The divisions once the current one is written out, which happens only when it holds a clip. */
  function Flush(g: Grouping): (ds: seq<Division>)
    ensures ds == g.done || ds == g.done + [g.current]
    ensures g.current.clips != [] <==> |ds| == |g.done| + 1
  {
    if g.current.clips == [] then g.done else g.done + [g.current]
  }

  /** The division a header row opens: its first word, which must be Manual or Pedal. */
  function HeaderName(tr: Node): (r: Result<string>)
    ensures r.Ok? <==> Words(GetText(tr)) != [] && Words(GetText(tr))[0] in {MANUAL, PEDAL}
    ensures r.Ok? ==> r.value == Words(GetText(tr))[0]
    ensures Words(GetText(tr)) == [] ==> r == Err(IndexError)
  {
    var words := Words(GetText(tr));
    if words == [] then Err(IndexError)
    else if words[0] !in {MANUAL, PEDAL} then Err(AssertionError("division in ('Manual', 'Pedal')"))
    else Ok(words[0])
  }

  /** One row of the loop at new/converter.py:112-175. */
  function RowStep(g: Grouping, row: Row): Result<Grouping> {
    if IsSamplesRow(row) then
      var clip :- ClipOf(row.cells);
      Ok(g.(current := g.current.(clips := g.current.clips + [clip])))
    else
      var name :- HeaderName(row.tr);
      Ok(Grouping(Flush(g), Division(name, [])))
  }

  function Group(rows: seq<Row>): Result<Grouping> {
    FoldSteps(rows, START, RowStep)
  }

  /** `extract_sound_clips`, given the rows of the samples table, or `None` when the page has none. */
  function SoundClipsOf(samples: Option<seq<Row>>): (r: Result<seq<Division>>)
    ensures samples.None? ==> r == Ok([])
  {
    match samples
    case None => Ok([])
    case Some(rows) =>
      var g :- Group(rows);
      Ok(Flush(g))
  }

  method ExtractSoundClips(samples: Option<seq<Row>>) returns (r: Result<seq<Division>>)
    ensures r == SoundClipsOf(samples)
  {
    if samples.None? {
      return Ok([]);
    }
    var rows := samples.value;
    var current := Division("", []);
    var clips: seq<Division> := [];
    for i := 0 to |rows|
      invariant Group(rows[..i]) == Ok(Grouping(clips, current))
    {
      FoldStep(rows, i, START, RowStep);
      var row := rows[i];
      if SAMPLES in ClassesOf(row.tr) {
        var clip := BuildClip(row.cells);
        if clip.Err? {
          FoldKeepsError(rows[..i + 1], rows[i + 1..], START, RowStep);
          SplitAt(rows, i + 1);
          return Err(clip.error);
        }
        current := current.(clips := current.clips + [clip.value]);
      } else {
        var words := Words(GetText(row.tr));
        if words == [] || words[0] !in {MANUAL, PEDAL} {
          FoldKeepsError(rows[..i + 1], rows[i + 1..], START, RowStep);
          SplitAt(rows, i + 1);
          return Err(if words == [] then IndexError else AssertionError("division in ('Manual', 'Pedal')"));
        }
        var division := words[0];
        if current.clips != [] {
          clips := clips + [current];
        }
        current := Division(division, []);
      }
    }
    SplitAt(rows, |rows|);
    if current.clips != [] {
      clips := clips + [current];
    }
    r := Ok(clips);
  }

  // ---------------------------------------------------------------------------
  // Properties

  predicate NamedDivision(d: Division) {
    d.divisionName in {MANUAL, PEDAL}
  }

  /**
   * The grouper's invariant: every division written out holds a clip, and
   * only the first division, the one open before any header, may be unnamed.
   */
  predicate WellGrouped(g: Grouping) {
    && (forall k :: 0 <= k < |g.done| ==> g.done[k].clips != [])
    && (forall k :: 0 < k < |g.done| ==> NamedDivision(g.done[k]))
    && (g.done != [] ==> NamedDivision(g.current))
    && g.current.divisionName in {"", MANUAL, PEDAL}
  }

  lemma RowStepWellGrouped(g: Grouping, row: Row)
    requires WellGrouped(g) && RowStep(g, row).Ok?
    ensures WellGrouped(RowStep(g, row).value)
  {
    if !IsSamplesRow(row) {
      var name := HeaderName(row.tr).value;
      var ds := Flush(g);
      assert forall k :: 0 <= k < |ds| ==> ds[k] == (if k < |g.done| then g.done[k] else g.current);
    }
  }

  lemma {:induction false} GroupWellGrouped(rows: seq<Row>)
    requires Group(rows).Ok?
    ensures WellGrouped(Group(rows).value)
  {
    if rows != [] {
      var init := rows[..|rows| - 1];
      GroupWellGrouped(init);
      RowStepWellGrouped(Group(init).value, rows[|rows| - 1]);
    }
  }

  /**
   * Every division written out holds at least one clip, and every division
   * but the first is named Manual or Pedal.
   */
  lemma DivisionsWellFormed(samples: Option<seq<Row>>)
    requires SoundClipsOf(samples).Ok?
    ensures forall k :: 0 <= k < |SoundClipsOf(samples).value| ==> SoundClipsOf(samples).value[k].clips != []
    ensures forall k :: 0 < k < |SoundClipsOf(samples).value| ==> NamedDivision(SoundClipsOf(samples).value[k])
  {
    if samples.Some? {
      var g := Group(samples.value).value;
      GroupWellGrouped(samples.value);
      var ds := Flush(g);
      assert forall k :: 0 <= k < |ds| ==> ds[k] == (if k < |g.done| then g.done[k] else g.current);
    }
  }

  /** The clips of a list of divisions, in order. */
  function AllClips(ds: seq<Division>): seq<Clip> {
    if ds == [] then [] else AllClips(ds[..|ds| - 1]) + ds[|ds| - 1].clips
  }

  /** The clip a row contributes: one for a `samples` row, none for a header. */
  function RowClip(row: Row): Result<Option<Clip>> {
    if IsSamplesRow(row) then
      var clip :- ClipOf(row.cells);
      Ok(Some(clip))
    else Ok(None)
  }

  lemma AllClipsFlush(g: Grouping)
    ensures AllClips(Flush(g)) == AllClips(g.done) + g.current.clips
  {
    if g.current.clips == [] {
      AppendNil(AllClips(g.done));
    } else {
      assert (g.done + [g.current])[..|g.done|] == g.done;
    }
  }

  lemma {:induction false} GroupCollects(rows: seq<Row>)
    requires Group(rows).Ok?
    ensures Collect(rows, RowClip) == Ok(AllClips(Group(rows).value.done) + Group(rows).value.current.clips)
  {
    if rows == [] {
      AppendNil(AllClips([]));
    } else {
      var init, row := rows[..|rows| - 1], rows[|rows| - 1];
      GroupCollects(init);
      var g := Group(init).value;
      if IsSamplesRow(row) {
        var clip := ClipOf(row.cells).value;
        AppendAssoc(AllClips(g.done), g.current.clips, [clip]);
      } else {
        AllClipsFlush(g);
        AppendNil(AllClips(Flush(g)));
      }
    }
  }

  /**
   * The clips written out are those of the `samples` rows, one per row and in
   * row order, whatever the headers between them: no clip is lost when a
   * division is closed.
   */
  lemma ClipsFollowRows(rows: seq<Row>)
    requires SoundClipsOf(Some(rows)).Ok?
    ensures Collect(rows, RowClip) == Ok(AllClips(SoundClipsOf(Some(rows)).value))
    ensures |AllClips(SoundClipsOf(Some(rows)).value)| == |Filter(rows, IsSamplesRow)|
  {
    GroupCollects(rows);
    AllClipsFlush(Group(rows).value);
    CollectFollows(rows, RowClip, IsSamplesRow);
  }

  /** The exception a row raises, whatever the state: from its clip or from its header. */
  function RowError(row: Row): Option<Failure> {
    if IsSamplesRow(row) then
      match ClipOf(row.cells)
      case Err(e) => Some(e)
      case Ok(_) => None
    else
      match HeaderName(row.tr)
      case Err(e) => Some(e)
      case Ok(_) => None
  }

  predicate BadRow(row: Row) {
    RowError(row).Some?
  }

  /** Whether a row fails does not depend on the state it meets. */
  lemma RowStepFails(g: Grouping, row: Row)
    ensures RowStep(g, row).Err? <==> BadRow(row)
    ensures RowStep(g, row).Err? ==> RowError(row) == Some(RowStep(g, row).error)
  {
  }

  /**
   * The table converts exactly when no row is bad, and otherwise fails with
   * the exception of the first bad row.
   */
  lemma FailsAtFirstBadRow(rows: seq<Row>)
    ensures Group(rows).Ok? <==> FirstWhere(rows, BadRow) == |rows|
    ensures Group(rows).Err? ==>
      FirstWhere(rows, BadRow) < |rows| && RowError(rows[FirstWhere(rows, BadRow)]) == Some(Group(rows).error)
  {
    forall g, row
      ensures (RowStep(g, row).Err? <==> BadRow(row)) &&
              (RowStep(g, row).Err? ==> RowError(row) == Some(RowStep(g, row).error))
    {
      RowStepFails(g, row);
    }
    FoldFailsAtFirst(rows, START, RowStep, BadRow, RowError);
  }

  /** A header whose first word is neither Manual nor Pedal fails the table once it is reached. */
  lemma BadHeaderFails(rows: seq<Row>, k: nat)
    requires k < |rows| && !IsSamplesRow(rows[k])
    requires Words(GetText(rows[k].tr)) != [] && Words(GetText(rows[k].tr))[0] !in {MANUAL, PEDAL}
    requires forall j :: 0 <= j < k ==> !BadRow(rows[j])
    ensures SoundClipsOf(Some(rows)) == Err(AssertionError("division in ('Manual', 'Pedal')"))
  {
    FirstWhereAt(rows, BadRow, k);
    FailsAtFirstBadRow(rows);
  }
}
