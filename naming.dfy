/** The asset name `main` gives each downloaded tile. Its "tile type" is
    group 1 of `re.search("([^/]+)/\d+/\d+/\d+\.\w+$", url)`: the path
    segment just before a trailing `/z/x/y.ext`. `\d` and `\w` are taken as
    their ASCII classes; `$` matches at the end of the URL or just before a
    newline that ends it, as in Python. */
module TileNaming {
  import opened Wrappers
  import opened TileUrl

  predicate IsWordChar(c: char)
  {
    'a' <= c <= 'z' || 'A' <= c <= 'Z' || IsDigit(c) || c == '_'
  }

  predicate AllWordChars(s: string)
  {
    forall i :: 0 <= i < |s| ==> IsWordChar(s[i])
  }

  /** The longest prefix of digits and the rest: what a greedy `\d+` consumes. */
  function SplitDigits(s: string): (r: (string, string))
    ensures r.0 + r.1 == s && AllDigits(r.0)
    ensures r.1 == [] || !IsDigit(r.1[0])
  {
    if s != [] && IsDigit(s[0]) then
      var (d, rest) := SplitDigits(s[1..]);
      assert [s[0]] + (d + rest) == s;
      ([s[0]] + d, rest)
    else ([], s)
  }

  /** The longest prefix of word characters and the rest: what a greedy `\w+` consumes. */
  function SplitWord(s: string): (r: (string, string))
    ensures r.0 + r.1 == s && AllWordChars(r.0)
    ensures r.1 == [] || !IsWordChar(r.1[0])
  {
    if s != [] && IsWordChar(s[0]) then
      var (w, rest) := SplitWord(s[1..]);
      assert [s[0]] + (w + rest) == s;
      ([s[0]] + w, rest)
    else ([], s)
  }

  /** First `/` at or after `i` (or the end): what a greedy `[^/]+` stops at. */
  function NextSlash(s: string, i: nat): (j: nat)
    requires i <= |s|
    ensures i <= j <= |s|
    ensures forall m :: i <= m < j ==> s[m] != '/'
    ensures j < |s| ==> s[j] == '/'
    decreases |s| - i
  {
    if i < |s| && s[i] != '/' then NextSlash(s, i + 1) else i
  }

  /** Python's `$` (without MULTILINE): at the end, or before a final newline. */
  predicate AtEnd(rest: string)
  {
    rest == [] || rest == "\n"
  }

  /** What `/z/x/y.ext` of the pattern reads: three digit strings, the
      extension, and whether a final newline follows it. */
  datatype Tail = Tail(z: string, x: string, y: string, ext: string, newline: bool)
  {
    predicate WellFormed()
    {
      |z| > 0 && AllDigits(z) && |x| > 0 && AllDigits(x) && |y| > 0 && AllDigits(y)
      && |ext| > 0 && AllWordChars(ext)
    }

    function Text(): string
    {
      "/" + (z + ("/" + (x + ("/" + (y + ("." + (ext + (if newline then "\n" else ""))))))))
    }
  }

  /** `/\d+` at the start of `t`, greedy: the digits and what follows them. */
  function DigitField(t: string): (r: Option<(string, string)>)
    ensures r.Some? ==> t == "/" + (r.value.0 + r.value.1) && |r.value.0| > 0 && AllDigits(r.value.0)
    ensures r.Some? ==> r.value.1 == [] || !IsDigit(r.value.1[0])
  {
    if |t| > 0 && t[0] == '/' then
      var (d, rest) := SplitDigits(t[1..]);
      if |d| > 0 then Some((d, rest)) else None
    else None
  }

  /** `\.\w+` at the start of `t`, greedy: the word and what follows it. */
  function WordField(t: string): (r: Option<(string, string)>)
    ensures r.Some? ==> t == "." + (r.value.0 + r.value.1) && |r.value.0| > 0 && AllWordChars(r.value.0)
    ensures r.Some? ==> r.value.1 == [] || !IsWordChar(r.value.1[0])
  {
    if |t| > 0 && t[0] == '.' then
      var (w, rest) := SplitWord(t[1..]);
      if |w| > 0 then Some((w, rest)) else None
    else None
  }

  /** `/\d+/\d+/\d+\.\w+$` at the start of `t`. Each greedy run stops at a
      character its class excludes, which is the only place the next part of
      the pattern can start, so no backtracking is needed. */
  function ReadTail(t: string): (r: Option<Tail>)
    ensures r.Some? ==> r.value.WellFormed() && r.value.Text() == t
  {
    match DigitField(t)
    case None => None
    case Some((z, r1)) =>
      match DigitField(r1)
      case None => None
      case Some((x, r2)) =>
        match DigitField(r2)
        case None => None
        case Some((y, r3)) =>
          match WordField(r3)
          case None => None
          case Some((ext, r4)) =>
            if AtEnd(r4) then Some(Tail(z, x, y, ext, r4 == "\n")) else None
  }

  /** The whole pattern matches starting at `i`, with group 1 = `s[i..NextSlash(s, i)]`. */
  predicate MatchAt(s: string, i: nat)
  {
    i < |s| && NextSlash(s, i) > i && ReadTail(s[NextSlash(s, i)..]).Some?
  }

  /** `re.search`: the first start position, from `i` on, where the pattern matches. */
  function Search(s: string, i: nat): (r: Option<nat>)
    requires i <= |s|
    ensures r.Some? ==> i <= r.value < |s|
    decreases |s| - i
  {
    if i == |s| then None
    else if MatchAt(s, i) then Some(i)
    else Search(s, i + 1)
  }

  /** Group 1 of the search, or `None` where Python's `.group` fails on no match. */
  function TileType(url: string): Option<string>
  {
    match Search(url, 0)
    case None => None
    case Some(i) => Some(url[i..NextSlash(url, i)])
  }

  /** `"{}-{}-{}-{}".format(tiletype, zoomlevel, x, y)`. */
  function TileName(url: string, zoomlevel: int, x: int, y: int): Option<string>
  {
    match TileType(url)
    case None => None
    case Some(t) => Some(t + "-" + IntToDecimal(zoomlevel) + "-" + IntToDecimal(x) + "-" + IntToDecimal(y))
  }

  /** A URL taken apart the way the pattern reads it. */
  datatype UrlParts = UrlParts(prefix: string, tileType: string, tail: Tail)
  {
    /** The prefix ends at a `/` (or is empty), the tile type is a non-empty
        segment without `/`, and the tail is well formed. */
    predicate WellFormed()
    {
      && (prefix == [] || prefix[|prefix| - 1] == '/')
      && |tileType| > 0 && '/' !in tileType
      && tail.WellFormed()
    }

    function Assemble(): string
    {
      prefix + (tileType + tail.Text())
    }
  }

  /** Number of `/` characters in `s`. */
  function SlashCount(s: string): nat
  {
    if s == [] then 0 else (if s[0] == '/' then 1 else 0) + SlashCount(s[1..])
  }

  lemma {:induction false} SlashCountAppend(a: string, b: string)
    ensures SlashCount(a + b) == SlashCount(a) + SlashCount(b)
    decreases |a|
  {
    if a == [] {
      assert a + b == b;
    } else {
      assert (a + b)[1..] == a[1..] + b;
      SlashCountAppend(a[1..], b);
    }
  }

  /** Digit and word strings hold no `/`. */
  lemma {:induction false} SlashFreeRun(s: string)
    requires AllDigits(s) || AllWordChars(s)
    ensures SlashCount(s) == 0
    decreases |s|
  {
    if s != [] {
      SlashFreeRun(s[1..]);
    }
  }

  /** `SlashCount` of `sep + (run + rest)` for a one-character separator and a slash-free run. */
  lemma SlashCountField(sep: string, run: string, rest: string)
    requires |sep| == 1 && (AllDigits(run) || AllWordChars(run))
    ensures SlashCount(sep + (run + rest)) == (if sep[0] == '/' then 1 else 0) + SlashCount(rest)
  {
    SlashFreeRun(run);
    SlashCountAppend(run, rest);
    assert (sep + (run + rest))[1..] == run + rest;
  }

  /** A tail holds exactly three slashes. */
  lemma TailSlashes(tl: Tail)
    requires tl.WellFormed()
    ensures SlashCount(tl.Text()) == 3
  {
    var nl := if tl.newline then "\n" else "";
    SlashCountField(".", tl.ext, nl);
    var r3 := "." + (tl.ext + nl);
    SlashCountField("/", tl.y, r3);
    var r2 := "/" + (tl.y + r3);
    SlashCountField("/", tl.x, r2);
    var r1 := "/" + (tl.x + r2);
    SlashCountField("/", tl.z, r1);
  }

  lemma SplitDigitsOf(d: string, rest: string)
    requires AllDigits(d) && (rest == [] || !IsDigit(rest[0]))
    ensures SplitDigits(d + rest) == (d, rest)
  {
    var (d', rest') := SplitDigits(d + rest);
    assert d' == (d + rest)[..|d'|];
    assert d == (d + rest)[..|d|];
  }

  lemma SplitWordOf(w: string, rest: string)
    requires AllWordChars(w) && (rest == [] || !IsWordChar(rest[0]))
    ensures SplitWord(w + rest) == (w, rest)
  {
    var (w', rest') := SplitWord(w + rest);
    assert w' == (w + rest)[..|w'|];
    assert w == (w + rest)[..|w|];
  }

  lemma DigitFieldOf(d: string, rest: string)
    requires |d| > 0 && AllDigits(d) && (rest == [] || !IsDigit(rest[0]))
    ensures DigitField("/" + (d + rest)) == Some((d, rest))
  {
    assert ("/" + (d + rest))[1..] == d + rest;
    SplitDigitsOf(d, rest);
  }

  lemma WordFieldOf(w: string, rest: string)
    requires |w| > 0 && AllWordChars(w) && (rest == [] || !IsWordChar(rest[0]))
    ensures WordField("." + (w + rest)) == Some((w, rest))
  {
    assert ("." + (w + rest))[1..] == w + rest;
    SplitWordOf(w, rest);
  }

  /** The pattern reads a well-formed tail back from its text. */
  lemma ReadTailOfText(tl: Tail)
    requires tl.WellFormed()
    ensures ReadTail(tl.Text()) == Some(tl)
  {
    var nl := if tl.newline then "\n" else "";
    var r3 := "." + (tl.ext + nl);
    var r2 := "/" + (tl.y + r3);
    var r1 := "/" + (tl.x + r2);
    WordFieldOf(tl.ext, nl);
    DigitFieldOf(tl.y, r3);
    DigitFieldOf(tl.x, r2);
    DigitFieldOf(tl.z, r1);
  }

  /** A string that starts with a slash holds at least one. */
  lemma SlashCountHead(s: string)
    requires |s| > 0 && s[0] == '/'
    ensures SlashCount(s) >= 1
  {
  }

  /** A tail the pattern reads starts with a `/` and holds three slashes. */
  lemma ReadTailSlashes(t: string)
    requires ReadTail(t).Some?
    ensures |t| > 0 && t[0] == '/' && SlashCount(t) == 3
  {
    TailSlashes(ReadTail(t).value);
  }

  /** The tail pattern can match at one position of a string at most: a
      match holds exactly three slashes, and an earlier match would hold the
      later one's three plus the slash it starts with. */
  lemma TailUnique(s: string, j1: nat, j2: nat)
    requires j1 <= |s| && j2 <= |s|
    requires ReadTail(s[j1..]).Some? && ReadTail(s[j2..]).Some?
    ensures j1 == j2
  {
    if j1 < j2 {
      TailsDoNotNest(s, j1, j2);
    } else if j2 < j1 {
      TailsDoNotNest(s, j2, j1);
    }
  }

  /** Two tails at `lo < hi`: the one at `lo` would hold the one at `hi`,
      whose three slashes plus its own first one make four. */
  lemma TailsDoNotNest(s: string, lo: nat, hi: nat)
    requires lo < hi <= |s|
    requires ReadTail(s[lo..]).Some?
    ensures ReadTail(s[hi..]).None?
  {
    hide ReadTail, SlashCount;
    ReadTailSlashes(s[lo..]);
    if ReadTail(s[hi..]).Some? {
      ReadTailSlashes(s[hi..]);
      var gap, rest := s[lo..hi], s[hi..];
      assert s[lo..] == gap + rest;
      assert gap[0] == '/';
      SlashCountAppend(gap, rest);
      SlashCountHead(gap);
    }
  }

  lemma {:induction false} SearchSkips(s: string, i: nat, k: nat)
    requires i <= k <= |s|
    requires forall m :: i <= m < k ==> !MatchAt(s, m)
    ensures Search(s, i) == Search(s, k)
    decreases k - i
  {
    hide MatchAt;
    if i < k {
      SearchSkips(s, i + 1, k);
    }
  }

  lemma {:induction false} SearchIsLeftmost(s: string, i: nat, k: nat, m: nat)
    requires i <= |s| && Search(s, i) == Some(k) && i <= m < k
    ensures !MatchAt(s, m)
    decreases m - i
  {
    hide MatchAt;
    if !MatchAt(s, i) && i < m {
      SearchIsLeftmost(s, i + 1, k, m);
    }
  }

  lemma {:induction false} SearchFindsMatch(s: string, i: nat, k: nat)
    requires i <= |s| && Search(s, i) == Some(k)
    ensures MatchAt(s, k)
    decreases |s| - i
  {
    hide MatchAt;
    if !MatchAt(s, i) {
      SearchFindsMatch(s, i + 1, k);
    }
  }

  /** The leftmost match starts a segment: at the start of the URL or just after a `/`. */
  lemma SearchStartsSegment(url: string, i: nat)
    requires Search(url, 0) == Some(i)
    ensures i == 0 || url[i - 1] == '/'
  {
    SearchFindsMatch(url, 0, i);
    if i > 0 && url[i - 1] != '/' {
      assert NextSlash(url, i - 1) == NextSlash(url, i);
      SearchIsLeftmost(url, 0, i, i - 1);
      assert false;
    }
  }

  /** The parts the pattern reads off a URL that matches at `i`. */
  function PartsAt(url: string, i: nat): UrlParts
    requires MatchAt(url, i)
  {
    var j := NextSlash(url, i);
    UrlParts(url[..i], url[i..j], ReadTail(url[j..]).value)
  }

  lemma PartsAtAssemble(url: string, i: nat)
    requires MatchAt(url, i) && (i == 0 || url[i - 1] == '/')
    ensures PartsAt(url, i).WellFormed() && PartsAt(url, i).Assemble() == url
  {
    hide ReadTail, NextSlash, Tail.WellFormed, Tail.Text;
    var j := NextSlash(url, i);
    assert url == url[..i] + (url[i..j] + url[j..]);
  }

  /** In a well-formed URL the pattern matches at the start of the tile type,
      and group 1 is the tile type. */
  lemma MatchAtTileType(p: UrlParts)
    requires p.WellFormed()
    ensures var u, i0 := p.Assemble(), |p.prefix|;
      && MatchAt(u, i0) && NextSlash(u, i0) == i0 + |p.tileType| && u[i0..NextSlash(u, i0)] == p.tileType
  {
    hide ReadTail, Tail.Text, Tail.WellFormed, NextSlash, SlashCount;
    var pre, ty, t := p.prefix, p.tileType, p.tail.Text();
    var u, i0, j := pre + (ty + t), |pre|, |pre| + |ty|;
    ReadTailOfText(p.tail);
    ConcatParts(pre, ty, t);
    ReadTailSlashes(t);
    forall m | i0 <= m < j ensures u[m] != '/' {
      assert u[m] == u[i0..j][m - i0] == ty[m - i0];
    }
    assert u[j] == u[j..][0] == '/';
    assert NextSlash(u, i0) == j;
  }

  /** The middle and the end of `a + (b + c)`. */
  lemma ConcatParts(a: string, b: string, c: string)
    ensures var u := a + (b + c); u[|a|..|a| + |b|] == b && u[|a| + |b|..] == c
  {
    var u := a + (b + c);
    assert u[|a|..] == b + c;
  }

  /** In a well-formed URL the pattern matches nowhere inside the prefix: a
      match there would need the tail right after the first `/` it reaches,
      which is at the latest the prefix's final `/`. */
  lemma NoMatchInPrefix(p: UrlParts, m: nat)
    requires p.WellFormed() && m < |p.prefix|
    ensures !MatchAt(p.Assemble(), m)
  {
    var u, i0 := p.Assemble(), |p.prefix|;
    MatchAtTileType(p);
    var j := NextSlash(u, i0);
    assert u[i0 - 1] == p.prefix[i0 - 1];
    var j' := NextSlash(u, m);
    if MatchAt(u, m) {
      TailUnique(u, j', j);
      assert false;
    }
  }

  /** A well-formed URL yields its own tile type: the search finds group 1
      exactly at the segment before `/z/x/y.ext`. */
  lemma TileTypeOfWellFormed(p: UrlParts)
    requires p.WellFormed()
    ensures TileType(p.Assemble()) == Some(p.tileType)
  {
    var u, i0 := p.Assemble(), |p.prefix|;
    MatchAtTileType(p);
    forall m | 0 <= m < i0 ensures !MatchAt(u, m) {
      NoMatchInPrefix(p, m);
    }
    hide MatchAt, NextSlash;
    SearchSkips(u, 0, i0);
  }

  /** Whatever the search finds is the tile type of a well-formed decomposition
      of the URL: the leftmost match starts just after a `/` or at the very start. */
  lemma TileTypeFound(url: string)
    requires TileType(url).Some?
    ensures exists p: UrlParts :: p.WellFormed() && p.Assemble() == url && p.tileType == TileType(url).value
  {
    var i := Search(url, 0).value;
    SearchFindsMatch(url, 0, i);
    SearchStartsSegment(url, i);
    PartsAtAssemble(url, i);
    assert PartsAt(url, i).tileType == TileType(url).value;
  }

  /** The search succeeds exactly on URLs that decompose well: both directions
      together say `TileType` computes group 1 of the leftmost match. */
  lemma TileTypeSpec(url: string)
    ensures TileType(url).Some? <==> exists p: UrlParts :: p.WellFormed() && p.Assemble() == url
  {
    if TileType(url).Some? {
      TileTypeFound(url);
    }
    if exists p: UrlParts :: p.WellFormed() && p.Assemble() == url {
      var p: UrlParts :| p.WellFormed() && p.Assemble() == url;
      TileTypeOfWellFormed(p);
    }
  }

  /** End to end for a template of the preset shape `.../<type>/{z}/{x}/{y}.<ext>`:
      with non-negative coordinates, the formatted URL is named after `<type>`
      and the three numbers, in order. */
  lemma PresetTileName(prefix: string, tileType: string, ext: string, zoomlevel: int, x: int, y: int)
    requires BraceFree(prefix) && (prefix == [] || prefix[|prefix| - 1] == '/')
    requires |tileType| > 0 && '/' !in tileType && BraceFree(tileType)
    requires |ext| > 0 && AllWordChars(ext)
    requires zoomlevel >= 0 && x >= 0 && y >= 0
    ensures TileName(FormatUrl(PresetTemplate(prefix + (tileType + "/"), ext), zoomlevel, x, y), zoomlevel, x, y)
         == Some(tileType + "-" + IntToDecimal(zoomlevel) + "-" + IntToDecimal(x) + "-" + IntToDecimal(y))
  {
    var p := UrlParts(prefix, tileType, Tail(IntToDecimal(zoomlevel), IntToDecimal(x), IntToDecimal(y), ext, false));
    PresetAssemble(prefix, tileType, ext, zoomlevel, x, y);
    TileTypeOfWellFormed(p);
  }

  lemma PresetAssemble(prefix: string, tileType: string, ext: string, zoomlevel: int, x: int, y: int)
    requires BraceFree(prefix) && BraceFree(tileType) && AllWordChars(ext)
    ensures FormatUrl(PresetTemplate(prefix + (tileType + "/"), ext), zoomlevel, x, y)
         == UrlParts(prefix, tileType, Tail(IntToDecimal(zoomlevel), IntToDecimal(x), IntToDecimal(y), ext, false)).Assemble()
  {
    hide FormatUrl, ReplaceAll, IntToDecimal, PresetTemplate;
    var base := prefix + (tileType + "/");
    var sz, sx, sy := IntToDecimal(zoomlevel), IntToDecimal(x), IntToDecimal(y);
    assert BraceFree(ext);
    assert BraceFree(base) by {
      assert base == prefix + tileType + "/";
    }
    FormatPresetUrl(base, ext, zoomlevel, x, y);
    var tl := Tail(sz, sx, sy, ext, false);
    var rest := sz + ("/" + (sx + ("/" + (sy + ("." + ext)))));
    assert tl.Text() == "/" + rest;
    assert UrlParts(prefix, tileType, tl).Assemble() == base + rest;
  }
}
