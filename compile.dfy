/**
 * The site builder (new/compile.py): for every converted record it gathers
 * the stop names and works out the page of the stop, named after its primary
 * name and filed under the bucket of that name's first letter. Reading the
 * records, copying assets and rendering templates are not part of this model.
 */
module Compile {
  import opened Results
  import opened PyText
  import opened Folds
  import opened StopNames
  import opened Pages

  /** `getLetter` (new/compile.py:6-7): the lowercased first character. */
  function GetLetter(name: string): (r: Result<string>)
    ensures r.Ok? <==> name != []
    ensures r.Err? ==> r.error == IndexError
    ensures r.Ok? ==> |r.value| == 1 && !IsAsciiUpper(r.value[0])
    ensures r.Ok? && !IsAsciiUpper(name[0]) ==> r.value == name[..1]
    ensures r.Ok? && IsAsciiUpper(name[0]) ==> r.value[0] as int == name[0] as int + 32
  {
    if name == [] then Err(IndexError) else Ok([LowerChar(name[0])])
  }

  /** `getNameURL` (new/compile.py:9-10): spaces become underscores. */
  function GetNameURL(name: string): (r: string)
    ensures |r| == |name|
    ensures ' ' !in r
    ensures forall i :: 0 <= i < |name| && name[i] != ' ' ==> r[i] == name[i]
    ensures forall i :: 0 <= i < |name| && name[i] == ' ' ==> r[i] == '_'
  {
    Replace(name, ' ', '_')
  }

  /** A URL name is its own URL name. */
  lemma GetNameURLIdempotent(name: string)
    ensures GetNameURL(GetNameURL(name)) == GetNameURL(name)
  {
    var r := GetNameURL(name);
    assert forall i :: 0 <= i < |r| ==> r[i] != ' ';
  }

  /** Two names differing only in spaces versus underscores share a URL. */
  lemma GetNameURLMerges(a: string, b: string)
    requires |a| == |b|
    requires forall i :: 0 <= i < |a| ==> a[i] == b[i] || (a[i] in {' ', '_'} && b[i] in {' ', '_'})
    ensures GetNameURL(a) == GetNameURL(b)
  {
  }

  predicate IsPrimary(n: StopName) {
    n.primary
  }

  /** `k` is the position of the first primary name. */
  predicate FirstPrimaryAt(names: seq<StopName>, k: int) {
    0 <= k < |names| && names[k].primary && forall j :: 0 <= j < k ==> !names[j].primary
  }

  /**
   * `next(item for item in names if item['primary'] == True)['name']`: the
   * first primary name; StopIteration when there is none.
   */
  function PrimaryName(names: seq<StopName>): (r: Result<string>)
    ensures r.Ok? <==> exists k :: 0 <= k < |names| && names[k].primary
    ensures r.Err? ==> r.error == StopIteration
    ensures r.Ok? ==> exists k :: FirstPrimaryAt(names, k) && names[k].name == r.value
  {
    var k := FirstWhere(names, IsPrimary);
    if k < |names| then
      forall j | 0 <= j < k
        ensures !names[j].primary
      {
        BeforeFirst(names, IsPrimary, j);
      }
      assert FirstPrimaryAt(names, k);
      Ok(names[k].name)
    else
      forall j | 0 <= j < |names|
        ensures !names[j].primary
      {
        BeforeFirst(names, IsPrimary, j);
      }
      Err(StopIteration)
  }

  /** A second primary name never decides the page name. */
  lemma FirstPrimaryWins(before: seq<StopName>, first: StopName, after: seq<StopName>)
    requires forall j :: 0 <= j < |before| ==> !before[j].primary
    requires first.primary
    ensures PrimaryName(before + [first] + after) == Ok(first.name)
  {
    var names := before + [first] + after;
    assert names[|before|] == first;
    assert PrimaryName(names).Ok?;
    var k :| FirstPrimaryAt(names, k) && names[k].name == PrimaryName(names).value;
    assert 0 <= k < |names|;

  }

  /** The page the builder writes for one record. */
  datatype SitePage = SitePage(name: string, letter: string, nameURL: string, path: string)

  /** `data['names']`: a record converted without a names table has no such key. */
  function NamesOf(data: StopRecord): (r: Result<seq<StopName>>)
    ensures r.Ok? <==> data.names.Some?
    ensures r.Err? ==> r.error == KeyError("names")
  {
    match data.names
    case None => Err(KeyError("names"))
    case Some(names) => Ok(names)
  }

  /** The page of one record (new/compile.py:34-41). */
  function PageOf(data: StopRecord): (r: Result<SitePage>)
    ensures r.Ok? ==> data.names.Some? && PrimaryName(data.names.value) == Ok(r.value.name)
    ensures r.Ok? ==> r.value.name != [] && GetLetter(r.value.name) == Ok(r.value.letter)
    ensures r.Ok? ==> r.value.nameURL == GetNameURL(r.value.name)
    ensures r.Ok? ==> r.value.path == PathJoin(PathJoin("build", r.value.letter), r.value.nameURL + ".html")
    ensures data.names.None? ==> r == Err(KeyError("names"))
    ensures data.names.Some? && PrimaryName(data.names.value).Err? ==> r == Err(StopIteration)
    ensures data.names.Some? && PrimaryName(data.names.value) == Ok([]) ==> r == Err(IndexError)
    ensures r.Ok? <==>
      data.names.Some? && PrimaryName(data.names.value).Ok? && PrimaryName(data.names.value).value != []
  {
    var names :- NamesOf(data);
    var name :- PrimaryName(names);
    var nameURL := GetNameURL(name);
    var letter :- GetLetter(name);
    Ok(SitePage(name, letter, nameURL, PathJoin(PathJoin("build", letter), nameURL + ".html")))
  }

  /** What the loop has built so far: every name met, and one page per record. */
  datatype Site = Site(names: seq<StopName>, pages: seq<SitePage>)

  function PageItem(data: StopRecord): Result<Option<SitePage>> {
    var page :- PageOf(data);
    Ok(Some(page))
  }

  /**
   * The loop over the records in walk order (new/compile.py:29-41): the names
   * of every record, and its page, or the first exception. A record whose
   * names cannot be read fails its page the same way.
   */
  function SiteOf(records: seq<StopRecord>): Result<Site> {
    var pages :- Collect(records, PageItem);
    Ok(Site(AllNames(records), pages))
  }

  /** `names.extend(data['names'])` over the records: every record's names, in order. */
  function AllNames(records: seq<StopRecord>): seq<StopName> {
    if records == [] then []
    else
      var last := records[|records| - 1];
      AllNames(records[..|records| - 1]) + if last.names.Some? then last.names.value else []
  }

  /** One more record adds its names, if it has any. */
  lemma AllNamesStep(records: seq<StopRecord>, i: nat)
    requires i < |records|
    ensures AllNames(records[..i + 1]) ==
            AllNames(records[..i]) + if records[i].names.Some? then records[i].names.value else []
  {
    PrefixStep(records, i);
  }

  /** The accumulated names of two runs of records are the names of the first, then of the second. */
  lemma {:induction false} AllNamesAppend(a: seq<StopRecord>, b: seq<StopRecord>)
    ensures AllNames(a + b) == AllNames(a) + AllNames(b)
  {
    if b != [] {
      var b' := b[..|b| - 1];
      assert (a + b)[..|a + b| - 1] == a + b';
      AllNamesAppend(a, b');
    } else {
      assert a + b == a;
    }
  }

  /** The same record met twice contributes its names twice. */
  lemma DuplicatesKept(data: StopRecord)
    requires data.names.Some?
    ensures AllNames([data, data]) == data.names.value + data.names.value
  {
    assert [data][..0] == [];
    assert AllNames([data]) == data.names.value;
    assert [data, data][..1] == [data];
  }

  /** A built site has one page per record, each made from its own record. */
  lemma SitePages(records: seq<StopRecord>)
    requires SiteOf(records).Ok?
    ensures |SiteOf(records).value.pages| == |records|
    ensures forall k :: 0 <= k < |records| ==> PageOf(records[k]) == Ok(SiteOf(records).value.pages[k])
  {
    CollectEach(records, PageItem);
  }

  method BuildSite(records: seq<StopRecord>) returns (r: Result<Site>)
    ensures r == SiteOf(records)
  {
    var names: seq<StopName> := [];
    var pages: seq<SitePage> := [];
    for i := 0 to |records|
      invariant names == AllNames(records[..i])
      invariant Collect(records[..i], PageItem) == Ok(pages)
    {
      CollectStep(records, i, PageItem);
      AllNamesStep(records, i);
      var data := records[i];
      var page := PageOf(data);
      if page.Err? {
        CollectKeepsError(records[..i + 1], records[i + 1..], PageItem);
        SplitAt(records, i + 1);
        return Err(page.error);
      }
      names := names + data.names.value;
      pages := pages + [page.value];
    }
    SplitAt(records, |records|);
    r := Ok(Site(names, pages));
  }
}
