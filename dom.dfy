/**
 * What the converter sees of a parsed page. BeautifulSoup builds the tree and
 * answers `find_all`, `descendants` and `next_sibling`; this module holds the
 * values those calls return, and the two sibling walks the converter writes
 * itself, `get_next_comment` and `get_next_element`.
 */
module Dom {
  import opened Results

  /** One entry of a tag's `.descendants`, in document order. */
  datatype Desc =
    | DText(text: string)
    | DComment(text: string)
      /** A tag among the descendants, with its attributes and its `.text`. */
    | DTag(name: string, attrs: map<string, string>, text: string)

  /**
   * A node as `next_sibling`, `previous_sibling` or `find_all` return it: a
   * text node, a comment (both are `NavigableString`s), or a tag with its
   * `class` list, its other attributes, its direct `contents` and its
   * `descendants`.
   */
  datatype Node =
    | Text(text: string)
    | Comment(text: string)
    | Element(name: string, classes: seq<string>, attrs: map<string, string>,
              contents: seq<Desc>, descendants: seq<Desc>)

  /** An `h2` found by `find_all('h2')`, with the siblings that follow it, in order. */
  datatype Heading = Heading(h2: Node, after: seq<Node>)

  /** An `<a>` tag among the descendants. */
  predicate IsAnchor(d: Desc) {
    d.DTag? && d.name == "a"
  }

  /** `isinstance(n, NavigableString)`. */
  predicate IsString(n: Node) {
    n.Text? || n.Comment?
  }

  /** `n.get('class', [])`. */
  function ClassesOf(n: Node): seq<string> {
    if n.Element? then n.classes else []
  }

  /** `n.name`: the tag name, `None` for a string. */
  function NameOf(n: Node): Option<string> {
    if n.Element? then Some(n.name) else None
  }

  /** `str(n.name)` as it appears in an error message. */
  function NameText(n: Node): string {
    if n.Element? then n.name else "None"
  }

  /** The concatenated text strings of a descendant list; comments are not text. */
  function TextOf(ds: seq<Desc>): string {
    if ds == [] then []
    else (if ds[0].DText? then ds[0].text else []) + TextOf(ds[1..])
  }

  /** `n.text`. */
  function GetText(n: Node): string {
    if n.Element? then TextOf(n.descendants) else n.text
  }

  /** `n.find_all(text=True)`: every string descendant, comments included. */
  function Strings(ds: seq<Desc>): (r: seq<string>)
    ensures |r| <= |ds|
  {
    if ds == [] then []
    else (if ds[0].DText? || ds[0].DComment? then [ds[0].text] else []) + Strings(ds[1..])
  }

  /** `tag['href']`: a missing attribute raises KeyError. */
  function Href(attrs: map<string, string>): (r: Result<string>)
    ensures r.Ok? <==> "href" in attrs
    ensures r.Ok? ==> r.value == attrs["href"]
    ensures r.Err? ==> r.error == KeyError("href")
  {
    if "href" in attrs then Ok(attrs["href"]) else Err(KeyError("href"))
  }

  /** A string node that is exactly one line break, which `get_next_element` steps over. */
  predicate IsNewline(n: Node) {
    IsString(n) && n.text == "\n"
  }

  /**
   * `get_next_element` (new/converter.py:216-221), on a sibling list: the first
   * position at or after `from` that is not a line-break string, or `None`.
   */
  function NextElement(sibs: seq<Node>, from: nat): (r: Option<nat>)
    ensures r.Some? ==> from <= r.value < |sibs| && !IsNewline(sibs[r.value])
    ensures forall j :: from <= j < |sibs| && (r.None? || j < r.value) ==> IsNewline(sibs[j])
    decreases |sibs| - from
  {
    if from >= |sibs| then None
    else if IsNewline(sibs[from]) then NextElement(sibs, from + 1)
    else Some(from)
  }

  method GetNextElement(sibs: seq<Node>, from: nat) returns (r: Option<nat>)
    ensures r == NextElement(sibs, from)
  {
    var current := from;
    while current < |sibs| && IsNewline(sibs[current])
      invariant from <= current
      invariant NextElement(sibs, current) == NextElement(sibs, from)
      decreases |sibs| - current
    {
      current := current + 1;
    }
    r := if current < |sibs| then Some(current) else None;
  }

  /**
   * `get_next_comment` and `get_previous_comment` (new/converter.py:53-72), on
   * the siblings in walking order from `from`: the position of the first
   * comment reached across text nodes only; a tag or the end of the list gives
   * `None`.
   */
  function NextCommentAt(sibs: seq<Node>, from: nat): (r: Option<nat>)
    ensures r.Some? ==> from <= r.value < |sibs| && sibs[r.value].Comment?
    ensures r.Some? ==> forall j :: from <= j < r.value ==> sibs[j].Text?
    ensures r.None? ==> forall j :: from <= j < |sibs| && sibs[j].Comment? ==>
      exists i :: from <= i < j && sibs[i].Element?
    decreases |sibs| - from
  {
    if from >= |sibs| then None
    else if sibs[from].Comment? then Some(from)
    else if sibs[from].Text? then NextCommentAt(sibs, from + 1)
    else None
  }

  /** The text of the comment `get_next_comment` returns, if any. */
  function NextComment(sibs: seq<Node>): Option<string> {
    match NextCommentAt(sibs, 0)
    case None => None
    case Some(k) => Some(sibs[k].text)
  }

  method GetNextComment(sibs: seq<Node>) returns (r: Option<string>)
    ensures r == NextComment(sibs)
  {
    var i := 0;
    while i < |sibs| && IsString(sibs[i])
      invariant i <= |sibs|
      invariant NextCommentAt(sibs, i) == NextCommentAt(sibs, 0)
      decreases |sibs| - i
    {
      if sibs[i].Comment? {
        return Some(sibs[i].text);
      }
      i := i + 1;
    }
    r := None;
  }
}
