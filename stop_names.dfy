/**
 * `extract_stop_names` (new/converter.py:369-417): one entry per `<br>` of a
 * stop's names table. The name is the text that ends the element two siblings
 * before the break, the origin is the text just before it, the link comes from
 * the anchors inside the name's element, and comments after the break mark an
 * entry as ignored or as the primary name.
 */
module StopNames {
  import opened Results
  import opened PyText
  import opened Dom
  import opened Folds

  const IGNORE := "IGNORE"
  const PRIMARY := "PRIMARY"
  const UNKNOWN_ORIGIN := "Unknown"

  datatype StopName = StopName(name: string, origin: string, link: string, primary: bool)

  /**
   * What the extractor sees around one `<br>`: its previous siblings, nearest
   * first, and its following siblings, in order.
   */
  datatype BreakSite = BreakSite(before: seq<Node>, after: seq<Node>)

  // ---------------------------------------------------------------------------
  // The name's text

  /** The strings at the end of a descendant list, up to the last tag (comments included). */
  function TrailingText(ds: seq<Desc>): string {
    if ds == [] || ds[|ds| - 1].DTag? then []
    else TrailingText(ds[..|ds| - 1]) + ds[|ds| - 1].text
  }

  /** The reversed loop at new/converter.py:387-391, prepending strings until it meets a tag. */
  method ReadTrailingText(ds: seq<Desc>) returns (name: string)
    ensures name == TrailingText(ds)
  {
    name := "";
    var i := |ds|;
    SplitAt(ds, i);
    while i > 0 && !ds[i - 1].DTag?
      invariant 0 <= i <= |ds|
      invariant TrailingText(ds) == TrailingText(ds[..i]) + name
    {
      assert ds[..i][..i - 1] == ds[..i - 1];
      name := ds[i - 1].text + name;
      i := i - 1;
    }
  }

  /** The concatenated strings of a list with no tag in it. */
  function AllText(ds: seq<Desc>): string {
    if ds == [] then [] else AllText(ds[..|ds| - 1]) + ds[|ds| - 1].text
  }

  /** Without a tag, the name is every string of the element. */
  lemma {:induction false} TrailingTextWithoutTags(ds: seq<Desc>)
    requires forall k :: 0 <= k < |ds| ==> !ds[k].DTag?
    ensures TrailingText(ds) == AllText(ds)
  {
    if ds != [] {
      TrailingTextWithoutTags(ds[..|ds| - 1]);
    }
  }

  /** Only what follows the last tag counts: everything up to and including it is dropped. */
  lemma {:induction false} TrailingTextAfterTag(a: seq<Desc>, t: Desc, b: seq<Desc>)
    requires t.DTag?
    ensures TrailingText(a + [t] + b) == TrailingText(b)
  {
    if b == [] {
      assert a + [t] + b == a + [t];
    } else {
      var b' := b[..|b| - 1];
      assert (a + [t] + b)[..|a + [t] + b| - 1] == a + [t] + b';
      TrailingTextAfterTag(a, t, b');
    }
  }

  // ---------------------------------------------------------------------------
  // The link

  /** A relative link `../x/y` is cut down to its last segment; any other href is kept whole. */
  function ReduceLink(href: string): (r: string)
    ensures Contains(href, "../") ==> r == LastSegment(href) && '/' !in r && |r| < |href|
    ensures !Contains(href, "../") ==> r == href
  {
    if Contains(href, "../") then
      ContainsSlash(href, "../");
      LastSegment(href)
    else href
  }

  lemma {:induction false} ContainsSlash(s: string, sub: string)
    requires Contains(s, sub) && '/' in sub
    ensures '/' in s
    decreases |s|
  {
    if StartsWith(s, sub) {
      var k :| 0 <= k < |sub| && sub[k] == '/';
      assert s[k] == sub[k];
    } else {
      ContainsSlash(s[1..], sub);
    }
  }

  /**
   * The link loop at new/converter.py:393-398: the reduced href of the last
   * anchor, "" when there is none; an anchor without an href raises KeyError.
   */
  function Link(ds: seq<Desc>): (r: Result<string>)
    ensures r.Err? ==> r.error == KeyError("href")
    ensures (forall k :: 0 <= k < |ds| ==> !IsAnchor(ds[k])) ==> r == Ok("")
  {
    if ds == [] then Ok("")
    else
      var prev :- Link(ds[..|ds| - 1]);
      var last := ds[|ds| - 1];
      if IsAnchor(last) then
        var href :- Href(last.attrs);
        Ok(ReduceLink(href))
      else Ok(prev)
  }

  method ReadLink(ds: seq<Desc>) returns (r: Result<string>)
    ensures r == Link(ds)
  {
    var link := "";
    var i := 0;
    while i < |ds|
      invariant i <= |ds|
      invariant Link(ds[..i]) == Ok(link)
    {
      PrefixStep(ds, i);
      var child := ds[i];
      if IsAnchor(child) {
        if "href" !in child.attrs {
          assert ds[..i + 1] == ds[..i] + [child];
          LinkKeepsError(ds[..i + 1], ds[i + 1..]);
          SplitAt(ds, i + 1);
          return Err(KeyError("href"));
        }
        link := ReduceLink(child.attrs["href"]);
      }
      i := i + 1;
    }
    SplitAt(ds, i);
    r := Ok(link);
  }

  /** Once an anchor without an href has been met, the rest of the list does not matter. */
  lemma {:induction false} LinkKeepsError(a: seq<Desc>, b: seq<Desc>)
    requires Link(a).Err?
    ensures Link(a + b) == Link(a)
  {
    if b != [] {
      var b' := b[..|b| - 1];
      assert (a + b)[..|a + b| - 1] == a + b';
      LinkKeepsError(a, b');
    } else {
      assert a + b == a;
    }
  }

  /** When every anchor has an href, the link is that of the last anchor, reduced. */
  lemma {:induction false} LinkIsLastAnchor(ds: seq<Desc>, k: nat)
    requires k < |ds| && IsAnchor(ds[k]) && "href" in ds[k].attrs
    requires forall j :: k < j < |ds| ==> !IsAnchor(ds[j])
    requires forall j :: 0 <= j < k && IsAnchor(ds[j]) ==> "href" in ds[j].attrs
    ensures Link(ds) == Ok(ReduceLink(ds[k].attrs["href"]))
  {
    if k < |ds| - 1 {
      var init := ds[..|ds| - 1];
      LinkIsLastAnchor(init, k);
    } else {
      var init := ds[..|ds| - 1];
      LinkDefined(init);
    }
  }

  /** With every anchor carrying an href, the link is defined. */
  lemma {:induction false} LinkDefined(ds: seq<Desc>)
    requires forall j :: 0 <= j < |ds| && IsAnchor(ds[j]) ==> "href" in ds[j].attrs
    ensures Link(ds).Ok?
  {
    if ds != [] {
      LinkDefined(ds[..|ds| - 1]);
    }
  }

  // ---------------------------------------------------------------------------
  // One entry

  /** The origin as it is written out: "Unknown" when missing, blank or "(unknown)", stripped otherwise. */
  function Origin(raw: Option<string>): (o: string)
    ensures o != []
    ensures Stripped(o)
    ensures o == UNKNOWN_ORIGIN <==> raw.None? || Strip(raw.value) in {"", "(unknown)", UNKNOWN_ORIGIN}
    ensures o != UNKNOWN_ORIGIN ==> o == Strip(raw.value)
  {
    if raw.None? || Blank(raw.value) then UNKNOWN_ORIGIN
    else
      var o := Strip(raw.value);
      if o == "(unknown)" then UNKNOWN_ORIGIN else o
  }

  /** The name as it is written out: stripped, then one leading apostrophe and the space after it removed. */
  function CleanName(name: string): (r: string)
    ensures Stripped(r)
    ensures |r| <= |Strip(name)|
    ensures !StartsWith(Strip(name), "'") ==> r == Strip(name)
    ensures StartsWith(Strip(name), "'") ==> r == Strip(Strip(name)[1..])
  {
    var t := Strip(name);
    if StartsWith(t, "'") then
      Strip(t[1..])
    else t
  }

  /** The element holding the name: the previous sibling when it is a tag, else the one before it. */
  function Holder(site: BreakSite): Option<Node> {
    if site.before == [] then None
    else if !IsString(site.before[0]) then Some(site.before[0])
    else if |site.before| < 2 then None
    else Some(site.before[1])
  }

  /** The origin text: the previous sibling when it is a string, nothing otherwise. */
  function RawOrigin(site: BreakSite): Option<string> {
    if site.before != [] && IsString(site.before[0]) then Some(site.before[0].text) else None
  }

  /**
   * The body of the loop at new/converter.py:373-415 for one break: `None` for
   * an ignored entry. A holder that is missing or is a string has no
   * `descendants` (AttributeError); an anchor without href raises KeyError; a
   * blank name fails the assertion.
   */
  function NameEntry(site: BreakSite): (r: Result<Option<StopName>>)
    ensures r == Ok(None) <==> NextComment(site.after) == Some(IGNORE)
    ensures r.Err? && Holder(site).Some? && Holder(site).value.Element? ==>
      r.error in {KeyError("href"), AssertionError("name.strip()")}
    ensures r.Err? && (Holder(site).None? || !Holder(site).value.Element?) ==> r.error == AttributeError("descendants")
    ensures r.Ok? && r.value.Some? ==>
      && Holder(site).Some? && Holder(site).value.Element?
      && !Blank(TrailingText(Holder(site).value.descendants))
      && r.value.value.name == CleanName(TrailingText(Holder(site).value.descendants))
      && r.value.value.origin == Origin(RawOrigin(site))
      && Link(Holder(site).value.descendants) == Ok(r.value.value.link)
      && (r.value.value.primary <==> NextComment(site.after) == Some(PRIMARY))
  {
    var comment := NextComment(site.after);
    if comment == Some(IGNORE) then Ok(None)
    else
      match Holder(site)
      case None => Err(AttributeError("descendants"))
      case Some(holder) =>
        if !holder.Element? then Err(AttributeError("descendants"))
        else
          var name := TrailingText(holder.descendants);
          var link :- Link(holder.descendants);
          if Blank(name) then Err(AssertionError("name.strip()"))
          else Ok(Some(StopName(CleanName(name), Origin(RawOrigin(site)), link, comment == Some(PRIMARY))))
  }

  method ReadEntry(site: BreakSite) returns (r: Result<Option<StopName>>)
    ensures r == NameEntry(site)
  {
    var comment := GetNextComment(site.after);
    if comment == Some(IGNORE) {
      return Ok(None);
    }
    var holder := Holder(site);
    if holder.None? || !holder.value.Element? {
      return Err(AttributeError("descendants"));
    }
    var descendants := holder.value.descendants;
    var name := ReadTrailingText(descendants);
    var link := ReadLink(descendants);
    if link.Err? {
      return Err(link.error);
    }
    if Blank(name) {
      return Err(AssertionError("name.strip()"));
    }
    var origin := Origin(RawOrigin(site));
    var primary := comment == Some(PRIMARY);
    r := Ok(Some(StopName(CleanName(name), origin, link.value, primary)));
  }

  // ---------------------------------------------------------------------------
  // The whole table

  /** The entries of a table's breaks, in order; the first failing break fails the table. */
  function Names(sites: seq<BreakSite>): (r: Result<seq<StopName>>)
    ensures r.Ok? ==> |r.value| <= |sites|
  {
    Collect(sites, NameEntry)
  }

  method ExtractStopNames(sites: seq<BreakSite>) returns (r: Result<seq<StopName>>)
    ensures r == Names(sites)
  {
    var names: seq<StopName> := [];
    var i := 0;
    while i < |sites|
      invariant i <= |sites|
      invariant Collect(sites[..i], NameEntry) == Ok(names)
    {
      CollectStep(sites, i, NameEntry);
      var entry := ReadEntry(sites[i]);
      if entry.Err? {
        CollectKeepsError(sites[..i + 1], sites[i + 1..], NameEntry);
        SplitAt(sites, i + 1);
        return Err(entry.error);
      }
      if entry.value.Some? {
        names := names + [entry.value.value];
      }
      i := i + 1;
    }
    SplitAt(sites, i);
    r := Ok(names);
  }

  // ---------------------------------------------------------------------------
  // Properties

  /** A break that is not marked IGNORE. */
  predicate NotIgnored(site: BreakSite) {
    NextComment(site.after) != Some(IGNORE)
  }

  /**
   * A table that converts has one entry per break not marked IGNORE, in order,
   * and each is the entry of its break.
   */
  lemma NamesFollowBreaks(sites: seq<BreakSite>)
    requires Names(sites).Ok?
    ensures |Names(sites).value| == |Filter(sites, NotIgnored)|
    ensures forall k :: 0 <= k < |Filter(sites, NotIgnored)| ==>
      NameEntry(Filter(sites, NotIgnored)[k]) == Ok(Some(Names(sites).value[k]))
  {
    CollectFollows(sites, NameEntry, NotIgnored);
  }

  /** The table is converted break by break: two runs of breaks convert to the two lists, joined. */
  lemma NamesAppend(a: seq<BreakSite>, b: seq<BreakSite>)
    requires Names(a).Ok? && Names(b).Ok?
    ensures Names(a + b) == Ok(Names(a).value + Names(b).value)
  {
    CollectAppend(a, b, NameEntry);
  }

  /** The first break that fails fails the table, whatever follows it. */
  lemma NamesStopAtError(a: seq<BreakSite>, b: seq<BreakSite>)
    requires Names(a).Err?
    ensures Names(a + b) == Names(a)
  {
    CollectKeepsError(a, b, NameEntry);
  }

  /** Every origin written out is non-empty and stripped, and so is every name. */
  lemma EntriesWellFormed(sites: seq<BreakSite>)
    requires Names(sites).Ok?
    ensures forall k :: 0 <= k < |Names(sites).value| ==>
      var n := Names(sites).value[k];
      n.origin != [] && Stripped(n.origin) && Stripped(n.name)
  {
    NamesFollowBreaks(sites);
  }

  lemma TrailingTextSingle(t: string)
    ensures TrailingText([DText(t)]) == t
  {
    assert [DText(t)][..0] == [];
  }

  /**
   * The converse of the entry's contract: a break not marked IGNORE whose holder
   * is a tag with a non-blank name and well-formed anchors gives exactly that entry.
   */
  lemma EntryDefined(site: BreakSite)
    requires NextComment(site.after) != Some(IGNORE)
    requires Holder(site).Some? && Holder(site).value.Element?
    requires Link(Holder(site).value.descendants).Ok?
    requires !Blank(TrailingText(Holder(site).value.descendants))
    ensures
      var ds := Holder(site).value.descendants;
      NameEntry(site) == Ok(Some(StopName(CleanName(TrailingText(ds)), Origin(RawOrigin(site)), Link(ds).value,
                                          NextComment(site.after) == Some(PRIMARY))))
  {
  }

  /**
   * Nothing counts primaries: two breaks that each give a primary entry make a
   * table with two primary names.
   */
  lemma TwoPrimaries(site: BreakSite)
    requires NextComment(site.after) == Some(PRIMARY)
    requires Holder(site).Some? && Holder(site).value.Element?
    requires Link(Holder(site).value.descendants).Ok?
    requires !Blank(TrailingText(Holder(site).value.descendants))
    ensures Names([site, site]).Ok? && |Names([site, site]).value| == 2
    ensures Names([site, site]).value[0].primary && Names([site, site]).value[1].primary
  {
    EntryDefined(site);
    var e := NameEntry(site).value.value;
    CollectPair(site, site, NameEntry, e, e);
  }

  /**
   * The blank check looks at the name before the apostrophe is removed, so a
   * name that is a lone apostrophe is written out empty.
   */
  lemma LoneApostrophe(name: string)
    requires Strip(name) == "'"
    ensures !Blank(name) && CleanName(name) == ""
  {
    var t := Strip(name);
    assert |t| == 1;
    assert CleanName(name) == Strip(t[1..]) by {
      assert StartsWith(t, "'");
    }
    assert t[1..] == [];
    assert Strip([]) == [] by {
      assert Blank([]);
    }
  }
}
