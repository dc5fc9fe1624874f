/**
 * The batch around the extractors (new/converter.py:420-451, 535-564): which
 * legacy pages exist, the stop name each one is converted under, where the
 * converter reads and writes, and which stops a run converts, in which order.
 * The directory walk is given as values; reading and writing files is not
 * part of this model.
 */
module Batch {
  import opened Results
  import opened PyText
  import opened Folds
  import opened Order

  /** `string.ascii_lowercase`. */
  const ASCII_LOWERCASE := "abcdefghijklmnopqrstuvwxyz"

  /** Stems of pages the converter cannot handle. */
  const SKIP: set<string> := {"CelloCeleste", "Gemshorn", "LieblichGedeckt", "OrchFlute",
                              "Ottavino", "Flute", "Resultant", "Rohrgedeckt"}

  /** First characters of names the walk ignores. */
  const HIDDEN_LEADERS: set<char> := {'_', '.'}

  /** A directory entry name; the file system never lists an empty one. */
  type FileName = s: string | s != [] witness "a"

  /** A sub-directory met by `os.walk`, with what `os.listdir` gives for it. */
  datatype SubDir = SubDir(name: string, listing: seq<FileName>)

  /** One step of `os.walk`: a directory and its sub-directories. */
  datatype WalkStep = WalkStep(root: string, subDirs: seq<SubDir>)

  // ---------------------------------------------------------------------------
  // Bucket directories

  /**
   * `sub_dir in string.ascii_lowercase`: a substring test, so every run of
   * consecutive letters of the alphabet passes, not just single letters.
   */
  predicate IsBucketName(d: string) {
    Contains(ASCII_LOWERCASE, d)
  }

  /** The letters of a run, each one after the previous in the alphabet. */
  predicate IsLetterRun(d: string) {
    (forall i :: 0 <= i < |d| ==> 'a' <= d[i] <= 'z') &&
    (forall i :: 0 <= i < |d| - 1 ==> d[i + 1] as int == d[i] as int + 1)
  }

  lemma AlphabetAt(p: nat)
    requires p < 26
    ensures ASCII_LOWERCASE[p] as int == 'a' as int + p
  {
  }

  /** `sub` sits at position `p` of `s`. */
  predicate At(s: string, sub: string, p: int) {
    0 <= p <= |s| - |sub| && s[p..p + |sub|] == sub
  }

  /** `sub in s` holds exactly when `sub` sits at some position of `s`. */
  lemma {:induction false} ContainsAt(s: string, sub: string)
    ensures Contains(s, sub) <==> exists p :: At(s, sub, p)
    decreases |s|
  {
    if s != [] {
      ContainsAt(s[1..], sub);
      if StartsWith(s, sub) {
        assert At(s, sub, 0);
      }
      if Contains(s[1..], sub) {
        var p :| At(s[1..], sub, p);
        assert s[p + 1..p + 1 + |sub|] == sub;
        assert At(s, sub, p + 1);
      }
      if exists p :: At(s, sub, p) {
        var p :| At(s, sub, p);
        if p > 0 {
          assert s[1..][p - 1..p - 1 + |sub|] == sub;
          assert At(s[1..], sub, p - 1);
        }
      }
    } else if sub == [] {
      assert At(s, sub, 0);
    }
  }

  /** A string that spells the alphabet from 'a'. */
  predicate SpellsAlphabet(s: string) {
    |s| == 26 && forall p :: 0 <= p < 26 ==> s[p] as int == 'a' as int + p
  }

  /** Every substring of the alphabet is a letter run. */
  lemma SubstringIsRun(s: string, d: string, p: int)
    requires SpellsAlphabet(s) && At(s, d, p)
    ensures IsLetterRun(d)
  {
    forall i | 0 <= i < |d|
      ensures d[i] as int == 'a' as int + p + i
    {
      assert d[i] == s[p + i];
    }
  }

  /** Every letter run sits somewhere in the alphabet. */
  lemma RunIsSubstring(s: string, d: string)
    requires SpellsAlphabet(s) && IsLetterRun(d)
    ensures exists p :: At(s, d, p)
  {
    if d == [] {
      assert At(s, d, 0);
    } else {
      var p := d[0] as int - 'a' as int;
      forall i | 0 <= i < |d|
        ensures d[i] as int == 'a' as int + p + i
      {
        var j := 0;
        while j < i
          invariant j <= i
          invariant d[j] as int == 'a' as int + p + j
        {
          j := j + 1;
        }
      }
      assert d[|d| - 1] as int == 'a' as int + p + |d| - 1;
      assert s[p..p + |d|] == d;
      assert At(s, d, p);
    }
  }

  /** In a string that spells the alphabet, the substrings are the letter runs. */
  lemma RunsOf(s: string, d: string)
    requires SpellsAlphabet(s)
    ensures Contains(s, d) <==> IsLetterRun(d)
  {
    ContainsAt(s, d);
    if Contains(s, d) {
      var p :| At(s, d, p);
      SubstringIsRun(s, d, p);
    }
    if IsLetterRun(d) {
      RunIsSubstring(s, d);
    }
  }

  /** The bucket test accepts exactly the runs of the alphabet, the empty one included. */
  lemma BucketNames(d: string)
    ensures IsBucketName(d) <==> IsLetterRun(d)
  {
    forall p | 0 <= p < 26
      ensures ASCII_LOWERCASE[p] as int == 'a' as int + p
    {
      AlphabetAt(p);
    }
    assert SpellsAlphabet(ASCII_LOWERCASE);
    RunsOf(ASCII_LOWERCASE, d);
  }

  // ---------------------------------------------------------------------------
  // collect_names_with_ext (new/converter.py:420-434)

  /** The stem `os.path.splitext` gives. */
  function Stem(f: FileName): string {
    SplitExt(f).0
  }

  /** A listed file the walk keeps: not hidden, with the wanted extension, not skipped. */
  predicate Accepted(f: FileName, extension: string) {
    f[0] !in HIDDEN_LEADERS && SplitExt(f).1 == extension && Stem(f) !in SKIP
  }

  /** The stem of a kept file is non-empty, not hidden, not skipped, and gives the file back with the extension. */
  lemma AcceptedStem(f: FileName, extension: string)
    requires Accepted(f, extension)
    ensures Stem(f) != [] && Stem(f)[0] == f[0] && Stem(f)[0] !in HIDDEN_LEADERS
    ensures Stem(f) !in SKIP && Stem(f) + extension == f
  {
    var (stem, ext) := SplitExt(f);
    assert f[0] == (stem + ext)[0];
  }

  /** What one listed file contributes. */
  function FileItem(extension: string): FileName -> set<string> {
    (f: FileName) => if Accepted(f, extension) then {Stem(f)} else {}
  }

  /** What one sub-directory contributes: its listing's names if it is a bucket. */
  function BucketItem(extension: string): SubDir -> set<string> {
    (d: SubDir) => if IsBucketName(d.name) then ListingNames(d.listing, extension) else {}
  }

  /** What one walk step contributes. */
  function StepItem(extension: string): WalkStep -> set<string> {
    (w: WalkStep) => SubDirNames(w.subDirs, extension)
  }

  /** The names of one listing. */
  function ListingNames(listing: seq<FileName>, extension: string): set<string> {
    Gather(listing, FileItem(extension))
  }

  /** The names of the buckets among one directory's sub-directories. */
  function SubDirNames(subDirs: seq<SubDir>, extension: string): set<string> {
    Gather(subDirs, BucketItem(extension))
  }

  /** The names the whole walk collects. */
  function WalkNames(walk: seq<WalkStep>, extension: string): set<string> {
    Gather(walk, StepItem(extension))
  }

  lemma ListingNamesAre(listing: seq<FileName>, extension: string, n: string)
    ensures n in ListingNames(listing, extension) <==>
      exists k :: 0 <= k < |listing| && Accepted(listing[k], extension) && Stem(listing[k]) == n
  {
    GatherHas(listing, FileItem(extension), n);
  }

  lemma SubDirNamesAre(subDirs: seq<SubDir>, extension: string, n: string)
    ensures n in SubDirNames(subDirs, extension) <==>
      exists j :: 0 <= j < |subDirs| && IsBucketName(subDirs[j].name) && n in ListingNames(subDirs[j].listing, extension)
  {
    GatherHas(subDirs, BucketItem(extension), n);
  }

  lemma WalkNamesAre(walk: seq<WalkStep>, extension: string, n: string)
    ensures n in WalkNames(walk, extension) <==>
      exists i :: 0 <= i < |walk| && n in SubDirNames(walk[i].subDirs, extension)
  {
    GatherHas(walk, StepItem(extension), n);
  }

  /**
   * Every collected name is the stem of a file with the extension, listed in
   * a bucket directory; it is not skipped and does not start like a hidden file.
   */
  lemma CollectedNames(walk: seq<WalkStep>, extension: string, n: string)
    requires n in WalkNames(walk, extension)
    ensures n != [] && n[0] !in HIDDEN_LEADERS && n !in SKIP
    ensures exists i, j :: ListedInBucket(walk, i, j, n + extension)
  {
    WalkNamesAre(walk, extension, n);
    var i :| 0 <= i < |walk| && n in SubDirNames(walk[i].subDirs, extension);
    SubDirNamesAre(walk[i].subDirs, extension, n);
    var j :| 0 <= j < |walk[i].subDirs| && IsBucketName(walk[i].subDirs[j].name) &&
      n in ListingNames(walk[i].subDirs[j].listing, extension);
    var listing := walk[i].subDirs[j].listing;
    ListingNamesAre(listing, extension, n);
    var k :| 0 <= k < |listing| && Accepted(listing[k], extension) && Stem(listing[k]) == n;
    AcceptedStem(listing[k], extension);
    assert listing[k] == n + extension;
    assert ListedInBucket(walk, i, j, n + extension);
  }

  /** The `j`-th sub-directory of the `i`-th walk step is a bucket listing `f`. */
  predicate ListedInBucket(walk: seq<WalkStep>, i: int, j: int, f: string) {
    0 <= i < |walk| && 0 <= j < |walk[i].subDirs| &&
    IsBucketName(walk[i].subDirs[j].name) && f in walk[i].subDirs[j].listing
  }

  /** A skipped stem or a hidden file never reaches the collected names. */
  lemma SkippedNeverCollected(walk: seq<WalkStep>, extension: string, n: string)
    requires n in SKIP || (n != [] && n[0] in HIDDEN_LEADERS)
    ensures n !in WalkNames(walk, extension)
  {
    if n in WalkNames(walk, extension) {
      CollectedNames(walk, extension, n);
    }
  }

  method CollectNamesWithExt(walk: seq<WalkStep>, extension: string) returns (names: set<string>)
    ensures names == WalkNames(walk, extension)
  {
    names := {};
    for i := 0 to |walk|
      invariant names == WalkNames(walk[..i], extension)
    {
      GatherStep(walk, i, StepItem(extension));
      ghost var before := names;
      var subDirs := walk[i].subDirs;
      for j := 0 to |subDirs|
        invariant names == before + SubDirNames(subDirs[..j], extension)
      {
        GatherStep(subDirs, j, BucketItem(extension));
        var subDir := subDirs[j];
        if Contains(ASCII_LOWERCASE, subDir.name) {
          ghost var outer := names;
          var stops := subDir.listing;
          for k := 0 to |stops|
            invariant names == outer + ListingNames(stops[..k], extension)
          {
            GatherStep(stops, k, FileItem(extension));
            var stop := stops[k];
            if stop[0] in HIDDEN_LEADERS {
              continue;
            }
            var (fileName, ext) := SplitExt(stop);
            if ext == extension && fileName !in SKIP {
              names := names + {fileName};
            }
          }
          SplitAt(stops, |stops|);
        }
      }
      SplitAt(subDirs, |subDirs|);
    }
    SplitAt(walk, |walk|);
  }

  // ---------------------------------------------------------------------------
  // collect_old_stops (new/converter.py:437-447)

  /** The regular expression `(?<!^)(?=[A-Z])` replaced by "_": "_" before every capital but a leading one. */
  function CamelToSnake(name: string): (r: string)
    ensures CapsMarkedAfter(r, 1)
    ensures '_' !in name ==> MarksBeforeCaps(r) && (r != [] ==> r[0] != '_')
  {
    if name == [] then []
    else
      var rest := UnderscoreCaps(name[1..]);
      UnderscoreCapsShape(name[1..]);
      assert forall i :: 1 <= i < |[name[0]] + rest| ==> ([name[0]] + rest)[i] == rest[i - 1];
      [name[0]] + rest
  }

  /** From position `from` on, every capital follows a "_". */
  predicate CapsMarkedAfter(r: string, from: nat) {
    forall i :: from <= i < |r| && IsAsciiUpper(r[i]) ==> i > 0 && r[i - 1] == '_'
  }

  /** Every "_" is followed by a capital. */
  predicate MarksBeforeCaps(r: string) {
    forall i :: 0 <= i < |r| && r[i] == '_' ==> i < |r| - 1 && IsAsciiUpper(r[i + 1])
  }

  /** `s` with "_" before every capital. */
  function UnderscoreCaps(s: string): string {
    if s == [] then []
    else (if IsAsciiUpper(s[0]) then ['_', s[0]] else [s[0]]) + UnderscoreCaps(s[1..])
  }

  /** Every capital follows a "_", and in an underscore-free string every "_" is put before a capital. */
  lemma {:induction false} UnderscoreCapsShape(s: string)
    ensures CapsMarkedAfter(UnderscoreCaps(s), 0)
    ensures '_' !in s ==> MarksBeforeCaps(UnderscoreCaps(s))
  {
    if s != [] {
      UnderscoreCapsShape(s[1..]);
      var head := if IsAsciiUpper(s[0]) then ['_', s[0]] else [s[0]];
      var rest := UnderscoreCaps(s[1..]);
      var r := head + rest;
      assert UnderscoreCaps(s) == r;
      assert forall i :: |head| <= i < |r| ==> r[i] == rest[i - |head|];
      forall i | 0 <= i < |r| && IsAsciiUpper(r[i])
        ensures i > 0 && r[i - 1] == '_'
      {
        if i >= |head| {
          assert IsAsciiUpper(rest[i - |head|]);
        }
      }
      if '_' !in s {
        forall i | 0 <= i < |r| && r[i] == '_'
          ensures i < |r| - 1 && IsAsciiUpper(r[i + 1])
        {
          if i >= |head| {
            assert rest[i - |head|] == '_';
          }
        }
      }
    }
  }

  /** `convert` removes the "_" again: an underscore-free name comes back unchanged. */
  lemma {:induction false} SnakeRoundTrip(name: string)
    requires '_' !in name
    ensures RemoveAll(CamelToSnake(name), '_') == name
  {
    if name != [] {
      UnderscoreRoundTrip(name[1..]);
      var r := CamelToSnake(name);
      assert r[1..] == UnderscoreCaps(name[1..]);
      assert name == [name[0]] + name[1..];
    }
  }

  lemma {:induction false} UnderscoreRoundTrip(s: string)
    requires '_' !in s
    ensures RemoveAll(UnderscoreCaps(s), '_') == s
  {
    if s != [] {
      var head := if IsAsciiUpper(s[0]) then ['_', s[0]] else [s[0]];
      RemoveAllAppend(head, UnderscoreCaps(s[1..]), '_');
      UnderscoreRoundTrip(s[1..]);
      assert RemoveAll(head, '_') == [s[0]];
      assert s == [s[0]] + s[1..];
    }
  }

  /** The new stop name of an old page name: names with "_" are kept as they are. */
  function Slug(name: string): (r: string)
    ensures '_' in name ==> r == name
    ensures '_' !in name ==> RemoveAll(r, '_') == name
  {
    SnakeRoundTripIfPlain(name);
    if '_' in name then name else CamelToSnake(name)
  }

  lemma SnakeRoundTripIfPlain(name: string)
    ensures '_' !in name ==> RemoveAll(CamelToSnake(name), '_') == name
  {
    if '_' !in name {
      SnakeRoundTrip(name);
    }
  }

  /** A string without capitals is left alone. */
  lemma {:induction false} NoCapsUnchanged(s: string)
    requires forall i :: 0 <= i < |s| ==> !IsAsciiUpper(s[i])
    ensures UnderscoreCaps(s) == s
  {
    if s != [] {
      NoCapsUnchanged(s[1..]);
      assert s == [s[0]] + s[1..];
    }
  }

  /**
   * The slug of a slug is itself: an old page already named like the stop
   * name of another one meets it under the same stop name.
   */
  lemma SlugIdempotent(name: string)
    ensures Slug(Slug(name)) == Slug(name)
  {
    var r := Slug(name);
    if '_' !in name && '_' !in r && r != [] {
      forall i | 1 <= i < |r|
        ensures !IsAsciiUpper(r[i])
      {
        assert r[i - 1] != '_';
      }
      NoCapsUnchanged(r[1..]);
      assert r == [r[0]] + r[1..];
    }
  }

  function SlugSet(names: set<string>): set<string> {
    set n | n in names :: Slug(n)
  }

  /** The stops of the old site. */
  function OldStops(oldWalk: seq<WalkStep>): set<string> {
    SlugSet(WalkNames(oldWalk, ".html"))
  }

  /** `collect_converted_stops` (new/converter.py:450-451). */
  function ConvertedStops(newWalk: seq<WalkStep>): set<string> {
    WalkNames(newWalk, ".json")
  }

  /** Taking one more name out of what is left adds its slug. */
  lemma SlugSetStep(all: set<string>, rest: set<string>, name: string)
    requires name in rest && rest <= all
    ensures SlugSet(all - (rest - {name})) == SlugSet(all - rest) + {Slug(name)}
  {
    assert all - (rest - {name}) == (all - rest) + {name};
  }

  method CollectOldStops(oldWalk: seq<WalkStep>) returns (stops: set<string>)
    ensures stops == OldStops(oldWalk)
  {
    var oldNames := CollectNamesWithExt(oldWalk, ".html");
    stops := {};
    var rest := oldNames;
    while rest != {}
      invariant rest <= oldNames
      invariant stops == SlugSet(oldNames - rest)
      decreases |rest|
    {
      var name :| name in rest;
      SlugSetStep(oldNames, rest, name);
      if '_' in name {
        stops := stops + {name};
      } else {
        stops := stops + {CamelToSnake(name)};
      }
      rest := rest - {name};
    }
    assert oldNames - rest == oldNames;
  }

  /** Every old stop is the slug of a page name the walk collected. */
  lemma OldStopsFromPages(oldWalk: seq<WalkStep>, stop: string)
    ensures stop in OldStops(oldWalk) <==> exists n :: n in WalkNames(oldWalk, ".html") && Slug(n) == stop
  {
  }

  // ---------------------------------------------------------------------------
  // convert (new/converter.py:535-547)

  /** The legacy file name `convert` tries first: the stop without "_", with ".html". */
  function OldName(stop: string): (r: FileName)
    ensures 5 <= |r| && r[..|r| - 5] == RemoveAll(stop, '_') && r[|r| - 5..] == ".html"
    ensures '_' !in r[..|r| - 5]
  {
    var r := RemoveAll(stop, '_') + ".html";
    assert r[..|r| - 5] == RemoveAll(stop, '_');
    r
  }

  /**
   * The bucket directory: the lowercased first character of the legacy file
   * name, which is the first character of the stop other than "_", or the "."
   * of ".html" when the stop is all underscores.
   */
  function Bucket(stop: string): (r: string)
    ensures |r| == 1 && !IsAsciiUpper(r[0])
    ensures forall k :: 0 <= k < |stop| && stop[k] != '_' && (forall j :: 0 <= j < k ==> stop[j] == '_') ==>
      r == [LowerChar(stop[k])]
    ensures (forall j :: 0 <= j < |stop| ==> stop[j] == '_') ==> r == "."
  {
    var r := [LowerChar(OldName(stop)[0])];
    assert forall k :: 0 <= k < |stop| && stop[k] != '_' && (forall j :: 0 <= j < k ==> stop[j] == '_') ==>
      r == [LowerChar(stop[k])] by {
      forall k | 0 <= k < |stop| && stop[k] != '_' && (forall j :: 0 <= j < k ==> stop[j] == '_')
        ensures r == [LowerChar(stop[k])]
      {
        RemoveAllFirst(stop, '_', k);
        assert OldName(stop)[0] == RemoveAll(stop, '_')[0];
      }
    }
    r
  }

  /** Where one stop is read from and written to. */
  datatype Job = Job(stop: string, oldPath: string, newPath: string)

  /**
   * The paths `convert` computes. `oldNameExists` is the answer of the file
   * system for the underscore-free legacy name.
   */
  function Convert(stop: string, oldDir: string, newDir: string, oldNameExists: bool): (j: Job)
    ensures j.stop == stop
    ensures StartsWith(j.oldPath, PathJoin(oldDir, Bucket(stop))) || StartsWith(j.oldPath, "/")
    ensures StartsWith(j.newPath, PathJoin(newDir, Bucket(stop))) || StartsWith(j.newPath, "/")
    ensures EndsWith(j.oldPath, if oldNameExists then OldName(stop) else stop + ".html")
    ensures EndsWith(j.newPath, stop + ".json")
    ensures j.oldPath == PathJoin(PathJoin(oldDir, Bucket(stop)), if oldNameExists then OldName(stop) else stop + ".html")
    ensures j.newPath == PathJoin(PathJoin(newDir, Bucket(stop)), stop + ".json")
  {
    var oldName := OldName(stop);
    var bucket := Bucket(stop);
    var oldPath := if oldNameExists then PathJoin(PathJoin(oldDir, bucket), oldName)
                   else PathJoin(PathJoin(oldDir, bucket), stop + ".html");
    Job(stop, oldPath, PathJoin(PathJoin(newDir, bucket), stop + ".json"))
  }

  /**
   * A page collected as `name.html` in the bucket of its first letter is
   * converted from that very file.
   */
  lemma ConvertFindsPage(name: string, oldDir: string, newDir: string)
    requires name != [] && '_' !in name
    ensures OldName(Slug(name)) == name + ".html"
    ensures Bucket(Slug(name)) == [LowerChar(name[0])]
    ensures Convert(Slug(name), oldDir, newDir, true).oldPath ==
      PathJoin(PathJoin(oldDir, [LowerChar(name[0])]), name + ".html")
  {
    assert (name + ".html")[0] == name[0];
  }

  /**
   * The stem of a written record is its stop, so the next run counts it
   * among the converted stops.
   */
  lemma {:induction false} WrittenStem(stop: string)
    requires stop != [] && '/' !in stop && !AllDots(stop)
    ensures SplitExt(stop + ".json") == (stop, ".json")
  {
    var p := stop + ".json";
    assert LastIndex(p, '.') == Some(|stop|) by {
      assert p == (stop + ".") + "json";
      assert (stop + ".")[|stop|] == '.';
      LastIndexSkips(stop + ".", "json", '.');
    }
    assert LastIndex(p, '/') == None by {
      assert '/' !in p;
    }
    assert p[..|stop|] == stop && p[0..|stop|] == stop;
    assert p[|stop|..] == ".json";
  }

  /** A file accepted in a bucket listing is collected under its stem. */
  lemma ListedCollected(walk: seq<WalkStep>, i: int, j: int, f: FileName, extension: string)
    requires ListedInBucket(walk, i, j, f) && Accepted(f, extension)
    ensures Stem(f) in WalkNames(walk, extension)
  {
    var listing := walk[i].subDirs[j].listing;
    var k :| 0 <= k < |listing| && listing[k] == f;
    ListingNamesAre(listing, extension, Stem(f));
    SubDirNamesAre(walk[i].subDirs, extension, Stem(f));
    WalkNamesAre(walk, extension, Stem(f));
  }

  /**
   * A record written for a stop is collected back as that stop by the next
   * run, provided its bucket is a letter directory the walk lists it in and the
   * stop is neither hidden-looking nor skipped.
   */
  lemma WrittenCollected(walk: seq<WalkStep>, i: int, j: int, stop: string)
    requires stop != [] && '/' !in stop && !AllDots(stop)
    requires stop[0] !in HIDDEN_LEADERS && stop !in SKIP
    requires ListedInBucket(walk, i, j, stop + ".json") && walk[i].subDirs[j].name == Bucket(stop)
    ensures stop in WalkNames(walk, ".json")
  {
    var f: FileName := stop + ".json";
    assert Accepted(f, ".json") by {
      WrittenStem(stop);
      assert f[0] == stop[0];
    }
    ListedCollected(walk, i, j, f, ".json");
  }

  /**
   * A stop whose first character other than "_" is not a letter is written
   * under a bucket that is no letter directory, so no walk collects it from
   * there.
   */
  lemma NonLetterBucket(stop: string, k: nat)
    requires k < |stop| && stop[k] != '_' && forall j :: 0 <= j < k ==> stop[j] == '_'
    requires !('a' <= LowerChar(stop[k]) <= 'z')
    ensures !IsBucketName(Bucket(stop))
  {
    BucketNames(Bucket(stop));
  }

  /** Appending text without `c` leaves the last `c` where it was. */
  lemma {:induction false} LastIndexSkips(s: string, t: string, c: char)
    requires c !in t
    ensures LastIndex(s + t, c) == LastIndex(s, c)
    decreases |t|
  {
    if t == [] {
      assert s + t == s;
    } else {
      var t' := t[..|t| - 1];
      assert (s + t)[..|s + t| - 1] == s + t';
      assert (s + t)[|s + t| - 1] == t[|t| - 1];
      LastIndexSkips(s, t', c);
    }
  }

  // ---------------------------------------------------------------------------
  // main (new/converter.py:550-564)

  /** The stops a run converts: all of them under `rewrite`, otherwise those not converted yet. */
  function ToConvert(stops: set<string>, converted: set<string>, rewrite: bool): (r: set<string>)
    ensures r <= stops
    ensures rewrite ==> r == stops
    ensures !rewrite ==> forall s :: s in stops ==> (s in r <==> s !in converted)
  {
    if rewrite then stops else stops - converted
  }

  function StopsOf(jobs: seq<Job>): (r: seq<string>)
    ensures |r| == |jobs| && forall k :: 0 <= k < |jobs| ==> r[k] == jobs[k].stop
  {
    seq(|jobs|, k requires 0 <= k < |jobs| => jobs[k].stop)
  }

  /** `convert` for one stop, asking `existing` whether the underscore-free legacy file is there. */
  function ConvertJob(stop: string, oldDir: string, newDir: string, existing: set<string>): Job {
    Convert(stop, oldDir, newDir, PathJoin(PathJoin(oldDir, Bucket(stop)), OldName(stop)) in existing)
  }

  /** `sorted(list(to_convert))`: the stops a run converts, in ascending order. */
  method SelectStops(oldWalk: seq<WalkStep>, newWalk: seq<WalkStep>, rewrite: bool) returns (order: seq<string>)
    ensures Ascending(order)
    ensures forall s :: s in order <==> s in ToConvert(OldStops(oldWalk), ConvertedStops(newWalk), rewrite)
    ensures |order| == |ToConvert(OldStops(oldWalk), ConvertedStops(newWalk), rewrite)|
  {
    var stops := CollectOldStops(oldWalk);
    var toConvert := stops;
    if !rewrite {
      var converted := CollectNamesWithExt(newWalk, ".json");
      toConvert := stops - converted;
    }
    order := Sort(toConvert);
  }

  /**
   * The conversions a run performs, in order. `existing` holds the legacy
   * files present when the run reaches them.
   */
  method PlanConversion(oldWalk: seq<WalkStep>, newWalk: seq<WalkStep>, oldDir: string, newDir: string,
                        rewrite: bool, existing: set<string>) returns (jobs: seq<Job>)
    ensures Ascending(StopsOf(jobs))
    ensures forall s :: s in StopsOf(jobs) <==> s in ToConvert(OldStops(oldWalk), ConvertedStops(newWalk), rewrite)
    ensures |jobs| == |ToConvert(OldStops(oldWalk), ConvertedStops(newWalk), rewrite)|
    ensures forall k :: 0 <= k < |jobs| ==> jobs[k] == ConvertJob(jobs[k].stop, oldDir, newDir, existing)
  {
    var order := SelectStops(oldWalk, newWalk, rewrite);
    jobs := ConvertAll(order, oldDir, newDir, existing);
    assert StopsOf(jobs) == order;
  }

  /** The loop of `main` over the selected stops. */
  method ConvertAll(order: seq<string>, oldDir: string, newDir: string, existing: set<string>) returns (jobs: seq<Job>)
    ensures |jobs| == |order|
    ensures forall k :: 0 <= k < |order| ==> jobs[k] == ConvertJob(order[k], oldDir, newDir, existing)
    ensures forall k :: 0 <= k < |order| ==> jobs[k].stop == order[k]
  {
    jobs := MapEach(order, (stop: string) => ConvertJob(stop, oldDir, newDir, existing));
  }

  /** Under `rewrite` a run converts every old stop, whatever was converted before. */
  lemma RewriteConvertsAll(stops: set<string>, converted: set<string>)
    ensures ToConvert(stops, converted, true) == stops
    ensures ToConvert(stops, converted, false) <= ToConvert(stops, converted, true)
  {
  }
}
