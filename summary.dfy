/**
 * `extract_summary_text` (new/converter.py:296-366): the description,
 * construction and usage prose of a stop, read from the paragraphs that follow
 * its names table. The work is done in three steps, each a loop of the source:
 * find the paragraph the prose starts at, gather the strings of it and of the
 * paragraphs and block quotes that follow it, and route those strings to the
 * three fields with a small state machine.
 */
module Summaries {
  import opened Results
  import opened PyText
  import opened Dom
  import opened Folds

  const NOT_DONE := "NotDone"
  const FOOTER := "Footer"
  const VARIANTS := "Variants"
  const TONAL_ATTRIBUTES := "Tonal Attributes"

  /** The state of the splitter: the field that receives text. */
  datatype Field = Description | Construction | Usage

  datatype Summary = Summary(description: string, construction: string, usage: string)

  const EMPTY := Summary("", "", "")

  // ---------------------------------------------------------------------------
  // Routing fragments to fields

  /** A fragment that ends the scan: a footer, a comparison list, or the Variants heading. */
  predicate IsStop(entry: string) {
    || Contains(entry, FOOTER)
    || StartsWith(Strip(entry), "See")
    || StartsWith(Strip(entry), "Compare with")
    || entry == VARIANTS
  }

  /** The field a heading fragment switches to; other fragments switch nothing. */
  function SwitchTo(entry: string): Option<Field> {
    if entry == "Construction" then Some(Construction)
    else if entry == "Usage" then Some(Usage)
    else if entry == TONAL_ATTRIBUTES then Some(Description)
    else None
  }

  /** A fragment as it is appended: line breaks become spaces. */
  function Cleaned(entry: string): string {
    Replace(entry, '\n', ' ')
  }

  /** The field in effect once `frags` have been read: set by the last heading, Description before any. */
  function FieldAfter(frags: seq<string>): Field {
    if frags == [] then Description
    else match SwitchTo(frags[|frags| - 1])
      case Some(f) => f
      case None => FieldAfter(frags[..|frags| - 1])
  }

  /** The text `frags` send to field `f`: each non-heading fragment goes to the field in effect before it. */
  function Routed(frags: seq<string>, f: Field): string {
    if frags == [] then []
    else
      var init, last := frags[..|frags| - 1], frags[|frags| - 1];
      Routed(init, f) + (if SwitchTo(last).None? && FieldAfter(init) == f then Cleaned(last) else [])
  }

  /** The position of the first stop fragment, or the length when there is none. */
  function StopIndex(frags: seq<string>): nat {
    FirstWhere(frags, IsStop)
  }

  /** What the splitter makes of a fragment stream: each field's text up to the first stop, finalized. */
  function SplitSummary(frags: seq<string>): (s: Summary)
    ensures IsFinal(s.description) && IsFinal(s.construction) && IsFinal(s.usage)
  {
    var p := frags[..StopIndex(frags)];
    Summary(Finalize(Routed(p, Description)), Finalize(Routed(p, Construction)), Finalize(Routed(p, Usage)))
  }

  lemma RoutedStep(frags: seq<string>, i: nat)
    requires i < |frags|
    ensures FieldAfter(frags[..i + 1]) == match SwitchTo(frags[i]) case Some(g) => g case None => FieldAfter(frags[..i])
    ensures forall f :: Routed(frags[..i + 1], f) ==
                        Routed(frags[..i], f) + (if SwitchTo(frags[i]).None? && FieldAfter(frags[..i]) == f then Cleaned(frags[i]) else [])
  {
    PrefixStep(frags, i);
  }

  /** The loop at new/converter.py:336-366. */
  method SplitFragments(frags: seq<string>) returns (s: Summary)
    ensures s == SplitSummary(frags)
  {
    var description, construction, usage := "", "", "";
    var current := Description;
    var i := 0;
    while i < |frags|
      invariant i <= StopIndex(frags)
      invariant current == FieldAfter(frags[..i])
      invariant description == Routed(frags[..i], Description)
      invariant construction == Routed(frags[..i], Construction)
      invariant usage == Routed(frags[..i], Usage)
    {
      var entry := frags[i];
      if IsStop(entry) {
        FirstWhereAt(frags, IsStop, i);
        break;
      }
      RoutedStep(frags, i);
      if entry == "Construction" || entry == "Usage" {
        current := if entry == "Construction" then Construction else Usage;
      } else if entry == TONAL_ATTRIBUTES {
        current := Description;
      } else {
        match current
        case Description => description := description + Cleaned(entry);
        case Construction => construction := construction + Cleaned(entry);
        case Usage => usage := usage + Cleaned(entry);
      }
      FirstWhereBeyond(frags, IsStop, i);
      i := i + 1;
    }
    FirstWhereAt(frags, IsStop, i);
    s := Summary(Finalize(description), Finalize(construction), Finalize(usage));
  }

  // ---------------------------------------------------------------------------
  // Finding the first paragraph and gathering the text

  /** `find_next_sibling('p')` stops only at `p` tags. */
  predicate IsP(n: Node) {
    n.Element? && n.name == "p"
  }

  /**
   * A paragraph that is really the closing tag of an inline image: an `img`
   * among its first five descendants and fewer than ten descendants in all.
   */
  predicate ClosesImage(n: Node) {
    && n.Element?
    && |n.descendants| < 10
    && exists k :: 0 <= k < 5 && k < |n.descendants| && n.descendants[k].DTag? && n.descendants[k].name == "img"
  }

  /** A paragraph the search steps over: an "under construction" note or an image closer. */
  predicate Skipped(n: Node) {
    NOT_DONE in ClassesOf(n) || ClosesImage(n)
  }

  /** `find_next_sibling('p')` from just before position `from`. */
  function NextP(sibs: seq<Node>, from: nat): (r: Option<nat>)
    ensures r.Some? ==> from <= r.value < |sibs| && IsP(sibs[r.value])
    ensures forall j :: from <= j < |sibs| && (r.None? || j < r.value) ==> !IsP(sibs[j])
    decreases |sibs| - from
  {
    if from >= |sibs| then None
    else if IsP(sibs[from]) then Some(from)
    else NextP(sibs, from + 1)
  }

  /**
   * The paragraph the prose starts at (new/converter.py:298-317): the first
   * `p` from `from` on that is not skipped, or `None` when every one is.
   */
  function StartParagraph(sibs: seq<Node>, from: nat): (r: Option<nat>)
    ensures r.Some? ==> from <= r.value < |sibs| && IsP(sibs[r.value]) && !Skipped(sibs[r.value])
    ensures forall j :: from <= j < |sibs| && (r.None? || j < r.value) && IsP(sibs[j]) ==> Skipped(sibs[j])
    decreases |sibs| - from
  {
    match NextP(sibs, from)
    case None => None
    case Some(j) => if Skipped(sibs[j]) then StartParagraph(sibs, j + 1) else Some(j)
  }

  /** One step of the search: a `p` at `j` is the start unless it is skipped. */
  lemma StartStep(sibs: seq<Node>, j: nat)
    requires j < |sibs| && IsP(sibs[j])
    ensures StartParagraph(sibs, j) == if Skipped(sibs[j]) then StartParagraph(sibs, j + 1) else Some(j)
  {
  }

  method FindStart(sibs: seq<Node>) returns (r: Option<nat>)
    ensures r == StartParagraph(sibs, 0)
  {
    var from := 0;
    var element := NextP(sibs, 0);
    while element.Some?
      invariant from <= |sibs|
      invariant element == NextP(sibs, from)
      invariant StartParagraph(sibs, 0) == StartParagraph(sibs, from)
      decreases |sibs| - from
    {
      if !Skipped(sibs[element.value]) {
        break;
      }
      StartStep(sibs, element.value);
      from := element.value + 1;
      element := NextP(sibs, from);
    }
    r := element;
  }

  /** The elements the gathering loop reads on: paragraphs and block quotes. */
  predicate IsBlock(n: Node) {
    n.Element? && (n.name == "p" || n.name == "blockquote")
  }

  /** `"FOOTER" in element`: a direct child string equal to "FOOTER". */
  predicate HasFooterChild(n: Node) {
    n.Element? && (DText("FOOTER") in n.contents || DComment("FOOTER") in n.contents)
  }

  /**
   * The strings gathered after the element at `at` (new/converter.py:328-334):
   * those of each following paragraph or block quote, up to a non-block
   * element, the end, or a block with a FOOTER child.
   */
  function Continuation(sibs: seq<Node>, at: nat): seq<string>
    decreases |sibs| - at
  {
    match NextElement(sibs, at + 1)
    case None => []
    case Some(k) =>
      if !IsBlock(sibs[k]) || HasFooterChild(sibs[k]) then []
      else Strings(sibs[k].descendants) + Continuation(sibs, k)
  }

  method GatherText(sibs: seq<Node>, start: nat) returns (text: seq<string>)
    requires start < |sibs| && sibs[start].Element?
    ensures text == Strings(sibs[start].descendants) + Continuation(sibs, start)
  {
    var element := start;
    text := Strings(sibs[start].descendants);
    var next := GetNextElement(sibs, element + 1);
    while next.Some? && IsBlock(sibs[next.value])
      invariant element < |sibs|
      invariant next == NextElement(sibs, element + 1)
      invariant Strings(sibs[start].descendants) + Continuation(sibs, start) == text + Continuation(sibs, element)
      decreases |sibs| - element
    {
      element := next.value;
      if HasFooterChild(sibs[element]) {
        break;
      }
      text := text + Strings(sibs[element].descendants);
      next := GetNextElement(sibs, element + 1);
    }
  }

  /** The fragment stream of a names table's following siblings, or `None` without a start paragraph. */
  function Fragments(sibs: seq<Node>): Option<seq<string>> {
    match StartParagraph(sibs, 0)
    case None => None
    case Some(j) => Some(Strings(sibs[j].descendants) + Continuation(sibs, j))
  }

  /** `extract_summary_text`, given the siblings that follow the names table. */
  function SummaryOf(sibs: seq<Node>): (s: Summary)
    ensures IsFinal(s.description) && IsFinal(s.construction) && IsFinal(s.usage)
  {
    match Fragments(sibs)
    case None => EMPTY
    case Some(frags) => SplitSummary(frags)
  }

  method ExtractSummaryText(sibs: seq<Node>) returns (s: Summary)
    ensures s == SummaryOf(sibs)
  {
    var start := FindStart(sibs);
    if start.None? {
      return EMPTY;
    }
    var text := GatherText(sibs, start.value);
    s := SplitFragments(text);
  }

  // ---------------------------------------------------------------------------
  // Properties

  /** Without a paragraph to start from (every `p` is skipped, or there is none), all three fields are empty. */
  lemma NoStartParagraph(sibs: seq<Node>)
    requires forall j :: 0 <= j < |sibs| && IsP(sibs[j]) ==> Skipped(sibs[j])
    ensures SummaryOf(sibs) == EMPTY
  {
  }

  /** The cleaned fragments, concatenated. */
  function Concat(frags: seq<string>): string {
    if frags == [] then [] else Concat(frags[..|frags| - 1]) + Cleaned(frags[|frags| - 1])
  }

  predicate NoHeadings(frags: seq<string>) {
    forall j :: 0 <= j < |frags| ==> SwitchTo(frags[j]).None?
  }

  /** Without headings everything goes to the description, and construction and usage stay empty. */
  lemma {:induction false} RoutedWithoutHeadings(frags: seq<string>)
    requires NoHeadings(frags)
    ensures FieldAfter(frags) == Description
    ensures Routed(frags, Description) == Concat(frags)
    ensures Routed(frags, Construction) == [] && Routed(frags, Usage) == []
  {
    if frags != [] {
      RoutedWithoutHeadings(frags[..|frags| - 1]);
    }
  }

  /** Reading one more fragment: a heading switches the field, anything else is appended to the field in effect. */
  lemma RoutedSnoc(init: seq<string>, last: string, f: Field)
    ensures FieldAfter(init + [last]) == match SwitchTo(last) case Some(g) => g case None => FieldAfter(init)
    ensures Routed(init + [last], f) ==
            Routed(init, f) + (if SwitchTo(last).None? && FieldAfter(init) == f then Cleaned(last) else [])
  {
    var whole := init + [last];
    assert whole[..|whole| - 1] == init;
    assert whole[|whole| - 1] == last;
  }

  /** Dropping the last fragment keeps a stream free of headings. */
  lemma NoHeadingsInit(q: seq<string>)
    requires q != [] && NoHeadings(q)
    ensures NoHeadings(q[..|q| - 1]) && SwitchTo(q[|q| - 1]).None?
  {
    var q' := q[..|q| - 1];
    forall j | 0 <= j < |q'|
      ensures SwitchTo(q'[j]).None?
    {
      assert q'[j] == q[j];
    }
  }

  /** Fragments that are not headings leave the field in effect unchanged. */
  lemma {:induction false} FieldKept(p: seq<string>, q: seq<string>)
    requires NoHeadings(q)
    ensures FieldAfter(p + q) == FieldAfter(p)
  {
    if q == [] {
      assert p + q == p;
    } else {
      var q' := q[..|q| - 1];
      NoHeadingsInit(q);
      FieldKept(p, q');
      AppendSnoc(p, q);
      RoutedSnoc(p + q', q[|q| - 1], Description);
    }
  }

  /** Fragments that are not headings all go, cleaned, to the field in effect. */
  lemma {:induction false} RoutedToCurrent(p: seq<string>, q: seq<string>)
    requires NoHeadings(q)
    ensures Routed(p + q, FieldAfter(p)) == Routed(p, FieldAfter(p)) + Concat(q)
  {
    var g := FieldAfter(p);
    if q == [] {
      assert p + q == p;
      assert Routed(p, g) + [] == Routed(p, g);
    } else {
      var q', last := q[..|q| - 1], q[|q| - 1];
      NoHeadingsInit(q);
      RoutedToCurrent(p, q');
      FieldKept(p, q');
      AppendSnoc(p, q);
      RoutedSnoc(p + q', last, g);
      AppendAssoc(Routed(p, g), Concat(q'), Cleaned(last));
    }
  }

  /** Fragments that are not headings send nothing to the fields not in effect. */
  lemma {:induction false} RoutedElsewhere(p: seq<string>, q: seq<string>, f: Field)
    requires NoHeadings(q) && f != FieldAfter(p)
    ensures Routed(p + q, f) == Routed(p, f)
  {
    if q == [] {
      assert p + q == p;
    } else {
      var q', last := q[..|q| - 1], q[|q| - 1];
      NoHeadingsInit(q);
      RoutedElsewhere(p, q', f);
      FieldKept(p, q');
      AppendSnoc(p, q);
      RoutedSnoc(p + q', last, f);
      assert Routed(p, f) + [] == Routed(p, f);
    }
  }

  /**
   * After a heading and until the next one, text goes to the heading's field
   * and to no other; the heading itself is never appended.
   */
  lemma RoutedAfterHeading(p: seq<string>, h: string, q: seq<string>, f: Field)
    requires SwitchTo(h).Some? && NoHeadings(q)
    ensures FieldAfter(p + [h] + q) == SwitchTo(h).value
    ensures Routed(p + [h] + q, f) == Routed(p, f) + (if f == SwitchTo(h).value then Concat(q) else [])
  {
    RoutedSnoc(p, h, f);
    assert Routed(p, f) + [] == Routed(p, f);
    FieldKept(p + [h], q);
    if f == SwitchTo(h).value {
      RoutedToCurrent(p + [h], q);
    } else {
      RoutedElsewhere(p + [h], q, f);
    }
  }

  /** Nothing after the first stop fragment matters. */
  lemma StopCutsOff(a: seq<string>, b: seq<string>)
    requires StopIndex(a) < |a|
    ensures SplitSummary(a + b) == SplitSummary(a)
  {
    FirstWhereAppend(a, b, IsStop);
    var k := StopIndex(a);
    assert (a + b)[..k] == a[..k];
  }

  /** A stream that starts with a stop fragment yields three empty fields. */
  lemma StopFirst(frags: seq<string>)
    requires frags != [] && IsStop(frags[0])
    ensures SplitSummary(frags) == EMPTY
  {
    assert frags[..0] == [];
    assert Words([]) == [];
  }
}
