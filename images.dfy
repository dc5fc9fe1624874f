/** `extract_images` (new/converter.py:229-238): the page's pictures, sponsor logos left out. */
module Images {
  import opened Results
  import opened Dom
  import opened Folds

  const SPONSOR_IMG_CLASS := "Sponsor"

  /** An image record: the `src` attribute, absent when the tag has none, and an empty subtitle. */
  datatype Image = Image(file: Option<string>, subtitle: string)

  predicate NotSponsor(img: Node) {
    SPONSOR_IMG_CLASS !in ClassesOf(img)
  }

  /** `img.get("src")`. */
  function Src(img: Node): Option<string> {
    if img.Element? && "src" in img.attrs then Some(img.attrs["src"]) else None
  }

  /** What one `img` tag contributes: its record, unless it is a sponsor logo. */
  function ImageEntry(img: Node): (r: Result<Option<Image>>)
    ensures r.Ok?
    ensures r.value.Some? <==> NotSponsor(img)
    ensures r.value.Some? ==> r.value.value == Image(Src(img), "")
  {
    Ok(if NotSponsor(img) then Some(Image(Src(img), "")) else None)
  }

  /**
   * `extract_images`, given `find_all("img")` in document order: one record per
   * image that is not a sponsor logo, in order, each with that image's source.
   */
  function ImagesOf(imgs: seq<Node>): (r: seq<Image>)
    ensures Collect(imgs, ImageEntry) == Ok(r)
    ensures |r| == |Filter(imgs, NotSponsor)|
    ensures forall k :: 0 <= k < |r| ==> r[k] == Image(Src(Filter(imgs, NotSponsor)[k]), "")
  {
    CollectTotal(imgs, ImageEntry);
    CollectFollows(imgs, ImageEntry, NotSponsor);
    Collect(imgs, ImageEntry).value
  }

  method ExtractImages(imgs: seq<Node>) returns (images: seq<Image>)
    ensures images == ImagesOf(imgs)
  {
    images := [];
    for i := 0 to |imgs|
      invariant Collect(imgs[..i], ImageEntry) == Ok(images)
    {
      CollectStep(imgs, i, ImageEntry);
      var img := imgs[i];
      if SPONSOR_IMG_CLASS !in ClassesOf(img) {
        images := images + [Image(Src(img), "")];
      }
    }
    SplitAt(imgs, |imgs|);
  }

  /** The images of two parts of a page are those of each part, joined. */
  lemma ImagesAppend(a: seq<Node>, b: seq<Node>)
    ensures ImagesOf(a + b) == ImagesOf(a) + ImagesOf(b)
  {
    assert Collect(a, ImageEntry) == Ok(ImagesOf(a)) && Collect(b, ImageEntry) == Ok(ImagesOf(b));
    CollectAppend(a, b, ImageEntry);
    assert Collect(a + b, ImageEntry) == Ok(ImagesOf(a + b));
  }
}
