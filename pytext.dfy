/**
 * The Python string operations the converter is built from, over `seq<char>`:
 * `isspace`, `strip`, `split()`, `' '.join`, `in` on strings, `startswith`,
 * ASCII `lower`, single-character `replace`, `rsplit('/')` and the
 * `posixpath` functions `splitext` and `join`.
 */
module PyText {
  import opened Results

  /** Python's `str.isspace()` on one character (every code point Python counts as whitespace). */
  predicate IsSpace(c: char) {
    || c == ' '
    || '\t' <= c <= '\r'
    || '\U{1c}' <= c <= '\U{1f}'
    || c == '\U{85}'
    || c == '\U{a0}'
    || c == '\U{1680}'
    || '\U{2000}' <= c <= '\U{200a}'
    || c == '\U{2028}'
    || c == '\U{2029}'
    || c == '\U{202f}'
    || c == '\U{205f}'
    || c == '\U{3000}'
  }

  /** True when `s.strip()` would be empty. */
  predicate Blank(s: string) {
    forall i :: 0 <= i < |s| ==> IsSpace(s[i])
  }

  function StripLeft(s: string): (r: string)
    ensures |r| <= |s| && r == s[|s| - |r|..]
    ensures Blank(s[..|s| - |r|])
    ensures r == [] || !IsSpace(r[0])
  {
    if s != [] && IsSpace(s[0]) then
      var r := StripLeft(s[1..]);
      assert s[..|s| - |r|] == [s[0]] + s[1..][..|s| - 1 - |r|];
      r
    else s
  }

  function StripRight(s: string): (r: string)
    ensures |r| <= |s| && r == s[..|r|]
    ensures Blank(s[|r|..])
    ensures r == [] || !IsSpace(r[|r| - 1])
  {
    if s != [] && IsSpace(s[|s| - 1]) then
      var r := StripRight(s[..|s| - 1]);
      assert s[|r|..] == s[..|s| - 1][|r|..] + [s[|s| - 1]];
      r
    else s
  }

  /** `s.strip()`: drops leading and trailing whitespace. */
  function Strip(s: string): (r: string)
    ensures |r| <= |s|
    ensures r == [] <==> Blank(s)
    ensures Stripped(r)
  {
    var t := StripLeft(s);
    assert t == [] ==> s[..|s| - |t|] == s;
    StripRight(t)
  }

  /** A string `strip` leaves alone: it neither starts nor ends with whitespace. */
  predicate Stripped(s: string) {
    s == [] || (!IsSpace(s[0]) && !IsSpace(s[|s| - 1]))
  }

  /** `strip` changes nothing in a stripped string, so stripping twice is stripping once. */
  lemma StrippedFixed(s: string)
    requires Stripped(s)
    ensures Strip(s) == s
  {
  }

  /** A word of `str.split()`: non-empty and free of whitespace. */
  predicate IsWord(w: string) {
    w != [] && forall i :: 0 <= i < |w| ==> !IsSpace(w[i])
  }

  /** The longest whitespace-free prefix of `s`. */
  function TakeWord(s: string): (w: string)
    ensures |w| <= |s| && w == s[..|w|]
    ensures forall i :: 0 <= i < |w| ==> !IsSpace(w[i])
    ensures |w| == |s| || IsSpace(s[|w|])
  {
    if s == [] || IsSpace(s[0]) then [] else [s[0]] + TakeWord(s[1..])
  }

  /** `s.split()` with no separator: the maximal runs of non-whitespace, in order. */
  function Words(s: string): (ws: seq<string>)
    ensures forall k :: 0 <= k < |ws| ==> IsWord(ws[k])
    decreases |s|
  {
    if s == [] then []
    else if IsSpace(s[0]) then Words(s[1..])
    else
      var w := TakeWord(s);
      var rest := Words(s[|w|..]);
      assert forall k :: 1 <= k < |[w] + rest| ==> ([w] + rest)[k] == rest[k - 1];
      [w] + rest
  }

  /** `' '.join(ws)`. */
  function Join(ws: seq<string>): string {
    if ws == [] then []
    else if |ws| == 1 then ws[0]
    else ws[0] + " " + Join(ws[1..])
  }

  /**
   * A finalized string: no leading or trailing whitespace, and every whitespace
   * character is a single plain space between two non-whitespace characters.
   */
  predicate IsFinal(r: string) {
    forall i :: 0 <= i < |r| && IsSpace(r[i]) ==>
      r[i] == ' ' && 0 < i < |r| - 1 && !IsSpace(r[i - 1]) && !IsSpace(r[i + 1])
  }

  /**
   * `finalize` (new/converter.py:292-293): `' '.join(s.split()).strip()`.
   * The result is final and has exactly the words of the input.
   */
  function Finalize(s: string): (r: string)
    ensures IsFinal(r)
    ensures Words(r) == Words(s)
  {
    var ws := Words(s);
    JoinIsFinal(ws);
    StripFinal(Join(ws));
    WordsOfJoin(ws);
    Strip(Join(ws))
  }

  lemma {:induction false} JoinIsFinal(ws: seq<string>)
    requires forall k :: 0 <= k < |ws| ==> IsWord(ws[k])
    ensures IsFinal(Join(ws))
    ensures ws != [] ==> |Join(ws)| > 0 && !IsSpace(Join(ws)[0]) && !IsSpace(Join(ws)[|Join(ws)| - 1])
  {
    if |ws| > 1 {
      var w, rest := ws[0], Join(ws[1..]);
      JoinIsFinal(ws[1..]);
      var j := Join(ws);
      assert j == w + " " + rest;
      forall i | 0 <= i < |j|
        ensures IsSpace(j[i]) ==> j[i] == ' ' && 0 < i < |j| - 1 && !IsSpace(j[i - 1]) && !IsSpace(j[i + 1])
      {
        if i < |w| {
          assert j[i] == w[i];
        } else if i > |w| {
          assert j[i] == rest[i - |w| - 1];
        }
      }
    }
  }

  lemma StripFinal(s: string)
    requires IsFinal(s)
    ensures Strip(s) == s
  {
    if s != [] {
      assert !IsSpace(s[0]) && !IsSpace(s[|s| - 1]);
    }
  }

  lemma {:induction false} TakeWordOf(w: string, t: string)
    requires forall i :: 0 <= i < |w| ==> !IsSpace(w[i])
    requires t == [] || IsSpace(t[0])
    ensures TakeWord(w + t) == w
  {
    if w != [] {
      assert (w + t)[1..] == w[1..] + t;
      TakeWordOf(w[1..], t);
    } else {
      assert w + t == t;
    }
  }

  lemma {:induction false} WordsOfJoin(ws: seq<string>)
    requires forall k :: 0 <= k < |ws| ==> IsWord(ws[k])
    ensures Words(Join(ws)) == ws
  {
    if |ws| == 1 {
      TakeWordOf(ws[0], []);
      assert ws[0] + [] == ws[0];
    } else if |ws| > 1 {
      var w, rest := ws[0], Join(ws[1..]);
      var j := w + (" " + rest);
      assert Join(ws) == j;
      assert StripLeft(j) == j;
      TakeWordOf(w, " " + rest);
      assert j[|w|..] == " " + rest;
      WordsAfterSpace(rest);
      WordsOfJoin(ws[1..]);
      assert Words(j) == [w] + Words(" " + rest);
    }
  }

  lemma WordsAfterSpace(x: string)
    ensures Words(" " + x) == Words(x)
  {
    assert (" " + x)[1..] == x;
    assert StripLeft(" " + x) == StripLeft(x);
  }

  /** Finalizing twice is the same as finalizing once. */
  lemma FinalizeIdempotent(s: string)
    ensures Finalize(Finalize(s)) == Finalize(s)
  {
  }

  /** `s.startswith(p)`. */
  predicate StartsWith(s: string, p: string) {
    |p| <= |s| && s[..|p|] == p
  }

  /** `s.endswith(t)`. */
  predicate EndsWith(s: string, t: string) {
    |t| <= |s| && s[|s| - |t|..] == t
  }

  /** `sub in s` for strings: `sub` occurs as a contiguous substring of `s`. */
  predicate Contains(s: string, sub: string)
    decreases |s|
  {
    StartsWith(s, sub) || (s != [] && Contains(s[1..], sub))
  }

  predicate IsAsciiUpper(c: char) {
    'A' <= c <= 'Z'
  }

  /** `c.lower()` for ASCII letters; every other character is left alone. */
  function LowerChar(c: char): (d: char)
    ensures !IsAsciiUpper(d)
    ensures IsAsciiUpper(c) ==> d as int == c as int + 32
    ensures !IsAsciiUpper(c) ==> d == c
  {
    if IsAsciiUpper(c) then (c as int + 32) as char else c
  }

  /** `s.lower()`, restricted to ASCII. */
  function Lower(s: string): (r: string)
    ensures |r| == |s|
    ensures forall i :: 0 <= i < |s| ==> r[i] == LowerChar(s[i])
  {
    seq(|s|, i requires 0 <= i < |s| => LowerChar(s[i]))
  }

  /** `s.replace(a, b)` for single characters `a` and `b`. */
  function Replace(s: string, a: char, b: char): (r: string)
    ensures |r| == |s|
    ensures forall i :: 0 <= i < |s| ==> r[i] == (if s[i] == a then b else s[i])
  {
    seq(|s|, i requires 0 <= i < |s| => if s[i] == a then b else s[i])
  }

  /** `''.join(s.split(c))`: `s` with every `c` removed. */
  function RemoveAll(s: string, c: char): (r: string)
    ensures c !in r
    ensures |r| <= |s|
    ensures c !in s ==> r == s
    ensures (forall i :: 0 <= i < |s| ==> s[i] == c) ==> r == []
  {
    if s == [] then []
    else if s[0] == c then RemoveAll(s[1..], c)
    else [s[0]] + RemoveAll(s[1..], c)
  }

  /** Removing `c` keeps the other characters in order: it distributes over concatenation. */
  lemma {:induction false} RemoveAllAppend(a: string, b: string, c: char)
    ensures RemoveAll(a + b, c) == RemoveAll(a, c) + RemoveAll(b, c)
  {
    if a != [] {
      assert (a + b)[0] == a[0];
      assert (a + b)[1..] == a[1..] + b;
      RemoveAllAppend(a[1..], b, c);
    } else {
      assert a + b == b;
    }
  }

  /** What survives first is the first character other than `c`. */
  lemma {:induction false} RemoveAllFirst(s: string, c: char, k: nat)
    requires k < |s| && s[k] != c
    requires forall j :: 0 <= j < k ==> s[j] == c
    ensures RemoveAll(s, c) != [] && RemoveAll(s, c)[0] == s[k]
  {
    if k > 0 {
      RemoveAllFirst(s[1..], c, k - 1);
    }
  }

  /** The position of the last `c` in `s`, if any (`str.rfind`). */
  function LastIndex(s: string, c: char): (r: Option<nat>)
    ensures r.Some? ==> r.value < |s| && s[r.value] == c && c !in s[r.value + 1..]
    ensures r.None? ==> c !in s
  {
    if s == [] then None
    else if s[|s| - 1] == c then Some(|s| - 1)
    else
      var r := LastIndex(s[..|s| - 1], c);
      assert r.Some? ==> s[r.value + 1..] == s[..|s| - 1][r.value + 1..] + [s[|s| - 1]];
      assert r.None? ==> s == s[..|s| - 1] + [s[|s| - 1]];
      r
  }

  /** `s.rsplit('/', 1)[-1]`: what follows the last `/` (all of `s` when it has none). */
  function LastSegment(s: string): (r: string)
    ensures '/' !in r
    ensures |r| <= |s| && r == s[|s| - |r|..]
    ensures |r| < |s| ==> s[|s| - |r| - 1] == '/'
  {
    match LastIndex(s, '/')
    case None => s
    case Some(k) => s[k + 1..]
  }

  /**
   * `s.rsplit('/', 2)[-2]`: the segment before the last `/`. A string without
   * `/` splits into one part, and indexing it at -2 raises IndexError.
   */
  function SecondToLastSegment(s: string): (r: Result<string>)
    ensures r.Err? <==> '/' !in s
    ensures r.Err? ==> r.error == IndexError
    ensures r.Ok? ==> '/' !in r.value && exists k :: 0 <= k < |s| && s[k] == '/' && '/' !in s[k + 1..] && r.value == LastSegment(s[..k])
  {
    match LastIndex(s, '/')
    case None => Err(IndexError)
    case Some(k) => Ok(LastSegment(s[..k]))
  }

  predicate AllDots(s: string) {
    forall i :: 0 <= i < |s| ==> s[i] == '.'
  }

  /**
   * `d` is where `os.path.splitext` cuts `p`: the last `.` of `p`, lying in the
   * last path component, with something other than dots before it in that
   * component.
   */
  predicate ExtStart(p: string, d: int) {
    0 <= d < |p| && p[d] == '.' && '.' !in p[d + 1..] && '/' !in p[d + 1..] && !AllDots(LastSegment(p[..d]))
  }

  /** The last `c` of `s` is the only position holding `c` with none after it. */
  lemma LastIndexUnique(s: string, c: char, k: nat)
    requires k < |s| && s[k] == c && c !in s[k + 1..]
    ensures LastIndex(s, c) == Some(k)
  {
  }

  /** The component before a cut at `d`, when the last `/` of `p` lies before `d`. */
  lemma LastSegmentBefore(p: string, d: nat, start: nat)
    requires start <= d <= |p|
    requires start == 0 ==> '/' !in p
    requires start > 0 ==> p[start - 1] == '/' && '/' !in p[start..]
    ensures LastSegment(p[..d]) == p[start..d]
  {
    var q := p[..d];
    if start == 0 {
      assert '/' !in q by {
        forall i | 0 <= i < |q| ensures q[i] != '/' {
          assert q[i] == p[i];
        }
      }
      assert LastIndex(q, '/') == None;
      assert q == p[0..d];
    } else {
      assert q[start - 1] == '/';
      assert q[start..] == p[start..d];
      assert '/' !in q[start..] by {
        forall i | 0 <= i < |q[start..]| ensures q[start..][i] != '/' {
          assert q[start..][i] == p[start..][i];
        }
      }
      LastIndexUnique(q, '/', start - 1);
    }
  }

  /** Where the last `/` leaves the last path component of `p` to start. */
  function ComponentStart(p: string): (start: nat)
    ensures start <= |p|
    ensures start == 0 ==> '/' !in p
    ensures start > 0 ==> p[start - 1] == '/' && '/' !in p[start..]
  {
    match LastIndex(p, '/') case None => 0 case Some(k) => k + 1
  }

  /** The only candidate cut is the last `.`. */
  lemma ExtStartIsLastDot(p: string, e: int)
    requires ExtStart(p, e)
    ensures LastIndex(p, '.') == Some(e)
  {
    LastIndexUnique(p, '.', e);
  }

  /** A `.` before the last `/` never starts an extension. */
  lemma NoExtStartBeforeSlash(p: string, d: nat)
    requires d < ComponentStart(p)
    ensures !ExtStart(p, d)
  {
  }

  /** The last `.` is a cut exactly when the code takes it. */
  lemma ExtStartAtLastDot(p: string, d: nat)
    requires LastIndex(p, '.') == Some(d)
    ensures ExtStart(p, d) <==> ComponentStart(p) <= d && !AllDots(p[ComponentStart(p)..d])
  {
    var start := ComponentStart(p);
    if start <= d {
      LastSegmentBefore(p, d, start);
    } else {
      NoExtStartBeforeSlash(p, d);
    }
  }

  /** Cutting at an extension start gives the two halves `splitext` returns. */
  lemma CutAtExtStart(p: string, d: nat)
    requires ExtStart(p, d)
    ensures p[..d] + p[d..] == p && |p[..d]| == d
    ensures p[d..][0] == '.' && '.' !in p[d..][1..] && '/' !in p[d..]
  {
    assert p[d..][1..] == p[d + 1..];
  }

  /**
   * `os.path.splitext(p)` on POSIX: the extension starts at the last `.` of the
   * last path component, unless only dots precede it in that component.
   */
  function SplitExt(p: string): (r: (string, string))
    ensures r.0 + r.1 == p
    ensures r.1 == [] || (r.1[0] == '.' && '.' !in r.1[1..] && '/' !in r.1)
    ensures r.1 != [] ==> ExtStart(p, |r.0|)
    ensures r.1 == [] ==> forall d :: !ExtStart(p, d)
  {
    var start := ComponentStart(p);
    match LastIndex(p, '.')
    case None =>
      assert forall d :: !ExtStart(p, d) by {
        forall d | 0 <= d < |p| ensures p[d] != '.' {
          assert p[d] in p;
        }
      }
      (p, [])
    case Some(d) =>
      ExtStartAtLastDot(p, d);
      assert forall e :: ExtStart(p, e) ==> e == d by {
        forall e | ExtStart(p, e) ensures e == d {
          ExtStartIsLastDot(p, e);
        }
      }
      if start <= d && !AllDots(p[start..d]) then
        CutAtExtStart(p, d);
        (p[..d], p[d..])
      else
        (p, [])
  }

  /** `os.path.join(a, b)` on POSIX. */
  function PathJoin(a: string, b: string): (r: string)
    ensures StartsWith(b, "/") ==> r == b
    ensures !StartsWith(b, "/") ==> StartsWith(r, a)
    ensures EndsWith(r, b)
    ensures !StartsWith(b, "/") && (a == [] || EndsWith(a, "/")) ==> r == a + b
    ensures !StartsWith(b, "/") && a != [] && !EndsWith(a, "/") ==> r == a + "/" + b
  {
    if StartsWith(b, "/") then b
    else if a == [] || a[|a| - 1] == '/' then a + b
    else a + "/" + b
  }
}
