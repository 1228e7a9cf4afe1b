/** Decimal rendering of integers (Python's `str` on an `int`) and the
    placeholder substitution `main` performs on the URL template with
    `str.replace`. */
module TileUrl {

  predicate IsDigit(c: char)
  {
    '0' <= c <= '9'
  }

  predicate AllDigits(s: string)
  {
    forall i :: 0 <= i < |s| ==> IsDigit(s[i])
  }

  function DigitChar(d: nat): char
    requires d < 10
  {
    "0123456789"[d]
  }

  function DigitValue(c: char): nat
    requires IsDigit(c)
  {
    (c - '0') as nat
  }

  /** Decimal digits of `n`, most significant first, without leading zeros. */
  function NatToDecimal(n: nat): (s: string)
    ensures |s| > 0 && AllDigits(s)
    ensures s[0] == '0' ==> s == "0"
  {
    if n < 10 then [DigitChar(n)] else NatToDecimal(n / 10) + [DigitChar(n % 10)]
  }

  /** Value of a string of decimal digits. */
  function DecimalValue(s: string): nat
    requires AllDigits(s)
  {
    if s == [] then 0 else 10 * DecimalValue(s[..|s| - 1]) + DigitValue(s[|s| - 1])
  }

  /** Reading the digits back gives the number. */
  lemma {:induction false} DecimalRoundTrip(n: nat)
    ensures DecimalValue(NatToDecimal(n)) == n
  {
    var s := NatToDecimal(n);
    DigitRoundTrip(n % 10);
    hide DigitChar, DigitValue;
    if n >= 10 {
      DecimalRoundTrip(n / 10);
      assert s[..|s| - 1] == NatToDecimal(n / 10);
    }
  }

  lemma DigitRoundTrip(d: nat)
    requires d < 10
    ensures IsDigit(DigitChar(d)) && DigitValue(DigitChar(d)) == d
  {
  }

  /** Distinct numbers have distinct renderings. */
  lemma DecimalInjective(m: nat, n: nat)
    requires NatToDecimal(m) == NatToDecimal(n)
    ensures m == n
  {
    DecimalRoundTrip(m);
    DecimalRoundTrip(n);
  }

  /** Python's `str(i)`: a minus sign before the digits of a negative number. */
  function IntToDecimal(i: int): (s: string)
    ensures |s| > 0
    ensures forall j :: 0 <= j < |s| ==> IsDigit(s[j]) || (j == 0 && s[j] == '-')
    ensures i >= 0 <==> AllDigits(s)
  {
    if i < 0 then
      var s := "-" + NatToDecimal(-i);
      assert !IsDigit(s[0]);
      s
    else NatToDecimal(i)
  }

  /** `str(i)` stands for `i`: the digits read back as `i` when it is not
      negative, and as `-i` after the minus sign when it is. */
  lemma IntToDecimalValue(i: int)
    ensures i >= 0 ==> DecimalValue(IntToDecimal(i)) == i
    ensures i < 0 ==> IntToDecimal(i)[0] == '-' && AllDigits(IntToDecimal(i)[1..])
                      && DecimalValue(IntToDecimal(i)[1..]) == -i
  {
    if i >= 0 {
      DecimalRoundTrip(i);
    } else {
      DecimalRoundTrip(-i);
      assert IntToDecimal(i)[1..] == NatToDecimal(-i);
    }
  }

  /** Whether `p` occurs in `s` as a contiguous piece. */
  predicate Occurs(s: string, p: string)
    decreases |s|
  {
    |s| >= |p| && (s[..|p|] == p || (|s| > 0 && Occurs(s[1..], p)))
  }

  /** Python's `s.replace(pat, rep)`: scan left to right, replacing each
      occurrence of `pat` and resuming after it, so occurrences never overlap. */
  function ReplaceAll(s: string, pat: string, rep: string): string
    requires |pat| > 0
    decreases |s|
  {
    if |s| < |pat| then s
    else if s[..|pat|] == pat then rep + ReplaceAll(s[|pat|..], pat, rep)
    else [s[0]] + ReplaceAll(s[1..], pat, rep)
  }

  /** Whether `a` and `b` have no character in common. */
  predicate NoSharedChar(a: string, b: string)
  {
    forall i :: 0 <= i < |a| ==> a[i] !in b
  }

  /** A string without `pat` is left as it is. */
  lemma {:induction false} ReplaceAbsent(s: string, pat: string, rep: string)
    requires |pat| > 0 && !Occurs(s, pat)
    ensures ReplaceAll(s, pat, rep) == s
    decreases |s|
  {
    if |s| >= |pat| {
      ReplaceAbsent(s[1..], pat, rep);
      assert s == [s[0]] + s[1..];
    }
  }

  /** When `pat` cannot start in the last `|pat| - 1` characters of `a`, no
      occurrence straddles the seam and the replacement splits over `a + b`. */
  predicate SeamFree(a: string, pat: string)
    requires |pat| > 0
  {
    forall m :: 0 <= m < |a| && m > |a| - |pat| ==> a[m] != pat[0]
  }

  /** One step of the scan, the three cases of `ReplaceAll`. */
  lemma ReplaceStep(s: string, pat: string, rep: string)
    requires |pat| > 0
    ensures ReplaceAll(s, pat, rep) ==
      if |s| < |pat| then s
      else if s[..|pat|] == pat then rep + ReplaceAll(s[|pat|..], pat, rep)
      else [s[0]] + ReplaceAll(s[1..], pat, rep)
  {
  }

  /** Dropping a front of `a` keeps it seam-free. */
  lemma SeamFreeTail(a: string, pat: string, d: nat)
    requires |pat| > 0 && d <= |a| && SeamFree(a, pat)
    ensures SeamFree(a[d..], pat)
  {
    forall m | 0 <= m < |a[d..]| && m > |a[d..]| - |pat| ensures a[d..][m] != pat[0] {
      assert a[d..][m] == a[m + d];
    }
  }

  /** When `a` does not start with `pat` and is seam-free, neither does `a + b`. */
  lemma FrontNotPattern(a: string, b: string, pat: string)
    requires |pat| > 0 && |a| > 0 && SeamFree(a, pat)
    requires |a| < |pat| || a[..|pat|] != pat
    ensures |a + b| < |pat| || (a + b)[..|pat|] != pat
  {
    if |a| >= |pat| {
      assert (a + b)[..|pat|] == a[..|pat|];
    } else if |a + b| >= |pat| {
      assert a[0] != pat[0];
      assert (a + b)[..|pat|][0] == a[0];
    }
  }

  /** Where `ReplaceAll` does not replace at the front, it copies the first character. */
  lemma CopyFront(s: string, pat: string, rep: string)
    requires |pat| > 0 && |s| > 0 && (|s| < |pat| || s[..|pat|] != pat)
    ensures ReplaceAll(s, pat, rep) == [s[0]] + ReplaceAll(s[1..], pat, rep)
  {
    ReplaceStep(s, pat, rep);
    if |s| < |pat| {
      ReplaceStep(s[1..], pat, rep);
      assert s == [s[0]] + s[1..];
    }
  }

  lemma {:induction false} ReplaceAppend(a: string, b: string, pat: string, rep: string)
    requires |pat| > 0 && SeamFree(a, pat)
    ensures ReplaceAll(a + b, pat, rep) == ReplaceAll(a, pat, rep) + ReplaceAll(b, pat, rep)
    decreases |a|
  {
    hide ReplaceAll, SeamFree;
    var ab := a + b;
    if |a| == 0 {
      assert ab == b;
      ReplaceStep(a, pat, rep);
    } else if |a| >= |pat| && a[..|pat|] == pat {
      assert ab[..|pat|] == pat;
      assert ab[|pat|..] == a[|pat|..] + b;
      ReplaceStep(ab, pat, rep);
      ReplaceStep(a, pat, rep);
      SeamFreeTail(a, pat, |pat|);
      ReplaceAppend(a[|pat|..], b, pat, rep);
    } else {
      FrontNotPattern(a, b, pat);
      CopyFront(ab, pat, rep);
      CopyFront(a, pat, rep);
      SeamFreeTail(a, pat, 1);
      assert ab[1..] == a[1..] + b;
      ReplaceAppend(a[1..], b, pat, rep);
    }
  }

  /** An occurrence of `q` in `r + t`, where `r` has no character of `q`, lies in `t`. */
  lemma {:induction false} OccursSkip(r: string, t: string, q: string)
    requires |q| > 0 && NoSharedChar(r, q) && Occurs(r + t, q)
    ensures Occurs(t, q)
    decreases |r|
  {
    if |r| > 0 {
      assert (r + t)[..|q|][0] == r[0];
      assert (r + t)[1..] == r[1..] + t;
      OccursSkip(r[1..], t, q);
    } else {
      assert r + t == t;
    }
  }

  lemma {:induction false} OccursInSuffix(s: string, k: nat, q: string)
    requires k <= |s| && Occurs(s[k..], q)
    ensures Occurs(s, q)
    decreases k
  {
    if k > 0 {
      assert s[1..][k - 1..] == s[k..];
      OccursInSuffix(s[1..], k - 1, q);
    }
  }

  lemma ReplacedFrontIsRep(t: string, pat: string, rep: string)
    requires |pat| > 0 && |rep| > 0 && |t| >= |pat| && t[..|pat|] == pat
    ensures ReplaceAll(t, pat, rep)[0] in rep
  {
  }

  /** A prefix of the result that contains no character of a non-empty `rep`
      was copied from the input unchanged. */
  lemma {:induction false} ReplacePrefixCopied(t: string, m: nat, pat: string, rep: string)
    requires |pat| > 0 && |rep| > 0
    requires m <= |ReplaceAll(t, pat, rep)|
    requires forall i :: 0 <= i < m ==> ReplaceAll(t, pat, rep)[i] !in rep
    ensures m <= |t| && ReplaceAll(t, pat, rep)[..m] == t[..m]
    decreases |t|
  {
    var r := ReplaceAll(t, pat, rep);
    if |t| < |pat| {
    } else if t[..|pat|] == pat {
      if m > 0 {
        ReplacedFrontIsRep(t, pat, rep);
        assert false;
      }
    } else if m > 0 {
      var r' := ReplaceAll(t[1..], pat, rep);
      assert r == [t[0]] + r';
      forall i | 0 <= i < m - 1 ensures r'[i] !in rep {
        assert r'[i] == r[i + 1];
      }
      ReplacePrefixCopied(t[1..], m - 1, pat, rep);
      assert r[..m] == [t[0]] + r'[..m - 1];
      assert t[..m] == [t[0]] + t[1..][..m - 1];
    }
  }

  /** When `rep` is non-empty and shares no character with `pat`, no occurrence of
      `pat` survives. */
  lemma {:induction false} ReplaceLeavesNoPattern(s: string, pat: string, rep: string)
    requires |pat| > 0 && |rep| > 0 && NoSharedChar(rep, pat)
    ensures !Occurs(ReplaceAll(s, pat, rep), pat)
    decreases |s|
  {
    if |s| < |pat| {
    } else if s[..|pat|] == pat {
      ReplaceLeavesNoPattern(s[|pat|..], pat, rep);
      if Occurs(ReplaceAll(s, pat, rep), pat) {
        OccursSkip(rep, ReplaceAll(s[|pat|..], pat, rep), pat);
        assert false;
      }
    } else {
      ReplaceLeavesNoPattern(s[1..], pat, rep);
      if Occurs(ReplaceAll(s, pat, rep), pat) {
        NoNewOccurrenceAtFront(s, pat, pat, rep);
        assert false;
      }
    }
  }

  /** One step of `Occurs`: at the front, or further on. */
  lemma OccursStep(s: string, p: string)
    ensures Occurs(s, p) == (|s| >= |p| && (s[..|p|] == p || (|s| > 0 && Occurs(s[1..], p))))
  {
  }

  /** No character of `q` is in `rep` when `rep` has no character of `q`. */
  lemma NotSharedChar(rep: string, q: string, i: nat)
    requires NoSharedChar(rep, q) && i < |q|
    ensures q[i] !in rep
  {
    forall j | 0 <= j < |rep| ensures rep[j] != q[i] {
      assert rep[j] !in q;
    }
  }

  /** In the "copy one character" case of `ReplaceAll`, a front of the
      result without characters of `rep` is the input's front. */
  lemma CopiedFront(s: string, q: string, pat: string, rep: string)
    requires |pat| > 0 && |rep| > 0 && |q| > 0 && NoSharedChar(rep, q)
    requires |s| >= |pat| && s[..|pat|] != pat
    requires |ReplaceAll(s, pat, rep)| >= |q| && ReplaceAll(s, pat, rep)[..|q|] == q
    ensures |s| >= |q| && s[..|q|] == q
  {
    var r := ReplaceAll(s, pat, rep);
    var r' := ReplaceAll(s[1..], pat, rep);
    ReplaceStep(s, pat, rep);
    hide ReplaceAll, NoSharedChar;
    assert r == [s[0]] + r';
    var m := |q| - 1;
    forall i | 0 <= i < m ensures r'[i] !in rep {
      assert r'[i] == r[i + 1] == q[i + 1];
      NotSharedChar(rep, q, i + 1);
    }
    ReplacePrefixCopied(s[1..], m, pat, rep);
    forall i | 0 <= i < |q| ensures s[i] == q[i] {
      if i > 0 {
        assert s[i] == s[1..][..m][i - 1] == r'[..m][i - 1] == r[i];
      }
    }
    assert s[..|q|] == q;
  }

  /** A first step shared by the two lemmas around it: in the "copy one
      character" case of `ReplaceAll`, an occurrence of `q` at the very front
      of the result was already at the front of the input. */
  lemma NoNewOccurrenceAtFront(s: string, q: string, pat: string, rep: string)
    requires |pat| > 0 && |rep| > 0 && |q| > 0 && NoSharedChar(rep, q)
    requires |s| >= |pat| && s[..|pat|] != pat
    requires Occurs(ReplaceAll(s, pat, rep), q)
    ensures (|s| >= |q| && s[..|q|] == q) || Occurs(ReplaceAll(s[1..], pat, rep), q)
  {
    var r := ReplaceAll(s, pat, rep);
    var r' := ReplaceAll(s[1..], pat, rep);
    ReplaceStep(s, pat, rep);
    OccursStep(r, q);
    hide ReplaceAll, Occurs, NoSharedChar;
    assert r[1..] == r';
    if !Occurs(r', q) {
      CopiedFront(s, q, pat, rep);
    }
  }

  /** A non-empty replacement string sharing no character with `q` creates no new
      occurrence of `q`. */
  lemma {:induction false} ReplaceAddsNoOccurrence(s: string, q: string, pat: string, rep: string)
    requires |pat| > 0 && |rep| > 0 && |q| > 0 && NoSharedChar(rep, q)
    requires Occurs(ReplaceAll(s, pat, rep), q)
    ensures Occurs(s, q)
    decreases |s|
  {
    if |s| < |pat| {
    } else if s[..|pat|] == pat {
      OccursSkip(rep, ReplaceAll(s[|pat|..], pat, rep), q);
      ReplaceAddsNoOccurrence(s[|pat|..], q, pat, rep);
      OccursInSuffix(s, |pat|, q);
    } else {
      NoNewOccurrenceAtFront(s, q, pat, rep);
      if !(|s| >= |q| && s[..|q|] == q) {
        ReplaceAddsNoOccurrence(s[1..], q, pat, rep);
        OccursInSuffix(s, 1, q);
      }
    }
  }

  /** The URL of tile (x, y) at `zoomlevel`: `{z}`, then `{x}`, then `{y}`
      replaced throughout the template by the decimal numbers. */
  function FormatUrl(urlfmt: string, zoomlevel: int, x: int, y: int): string
  {
    ReplaceAll(ReplaceAll(ReplaceAll(urlfmt, "{z}", IntToDecimal(zoomlevel)), "{x}", IntToDecimal(x)), "{y}", IntToDecimal(y))
  }

  /** No `{`, so no placeholder. */
  predicate BraceFree(s: string)
  {
    '{' !in s
  }

  lemma {:induction false} OccursStartChar(s: string, p: string)
    requires |p| > 0 && Occurs(s, p)
    ensures p[0] in s
    decreases |s|
  {
    if s[..|p|] != p {
      OccursStartChar(s[1..], p);
    } else {
      assert s[0] == p[0];
    }
  }

  /** Replacing a placeholder leaves a brace-free string unchanged and splits over it. */
  lemma BraceFreeReplace(a: string, b: string, pat: string, rep: string)
    requires |pat| > 0 && pat[0] == '{' && BraceFree(a)
    ensures ReplaceAll(a, pat, rep) == a
    ensures ReplaceAll(a + b, pat, rep) == a + ReplaceAll(b, pat, rep)
  {
    if Occurs(a, pat) {
      OccursStartChar(a, pat);
    }
    ReplaceAbsent(a, pat, rep);
    ReplaceAppend(a, b, pat, rep);
  }

  /** A placeholder token such as `{z}`. */
  predicate Placeholder(p: string)
  {
    |p| == 3 && p[0] == '{' && p[1] != '{' && p[2] == '}'
  }

  /** Replacing the placeholder `pat` inside `p` + `b`, where `p` is itself a
      placeholder: `p` becomes `rep` if it is `pat` and stays otherwise. */
  lemma PlaceholderReplace(p: string, b: string, pat: string, rep: string)
    requires Placeholder(p) && Placeholder(pat)
    ensures ReplaceAll(p + b, pat, rep) == (if p == pat then rep else p) + ReplaceAll(b, pat, rep)
  {
    assert SeamFree(p, pat);
    ReplaceAppend(p, b, pat, rep);
    ReplaceStep(p, pat, rep);
    hide ReplaceAll;
    if p == pat {
      assert p[|pat|..] == [];
      ReplaceStep([], pat, rep);
    } else {
      assert p[..|pat|] == p;
      ReplaceStep(p[1..], pat, rep);
      assert p == [p[0]] + p[1..];
    }
  }

  /** A URL template of the shape every preset has:
      `prefix` `{z}` `/` `{x}` `/` `{y}` `.` `ext`, with brace-free prefix and extension. */
  function PresetTemplate(prefix: string, ext: string): string
  {
    prefix + ("{z}" + ("/" + ("{x}" + ("/" + ("{y}" + ("." + ext))))))
  }

  /** The same shape with three strings in the placeholder positions. */
  function PresetUrl(prefix: string, z: string, x: string, y: string, ext: string): string
  {
    prefix + (z + ("/" + (x + ("/" + (y + ("." + ext))))))
  }

  lemma ReplaceInPreset(prefix: string, z: string, x: string, y: string, ext: string, pat: string, rep: string)
    requires BraceFree(prefix) && BraceFree(ext) && Placeholder(pat)
    requires Placeholder(z) || BraceFree(z)
    requires Placeholder(x) || BraceFree(x)
    requires Placeholder(y) || BraceFree(y)
    ensures ReplaceAll(PresetUrl(prefix, z, x, y, ext), pat, rep)
         == PresetUrl(prefix, if z == pat then rep else z, if x == pat then rep else x, if y == pat then rep else y, ext)
  {
    var tail3 := "." + ext;
    var tail2 := y + tail3;
    var tail1 := "/" + tail2;
    var mid := x + tail1;
    var rest := "/" + mid;
    var all := z + rest;
    BraceFreeReplace(tail3, [], pat, rep);
    assert tail3 + [] == tail3;
    BraceFreeReplace(ext, [], pat, rep);
    if Placeholder(y) { PlaceholderReplace(y, tail3, pat, rep); } else { BraceFreeReplace(y, tail3, pat, rep); }
    BraceFreeReplace("/", tail2, pat, rep);
    if Placeholder(x) { PlaceholderReplace(x, tail1, pat, rep); } else { BraceFreeReplace(x, tail1, pat, rep); }
    BraceFreeReplace("/", mid, pat, rep);
    if Placeholder(z) { PlaceholderReplace(z, rest, pat, rep); } else { BraceFreeReplace(z, rest, pat, rep); }
    BraceFreeReplace(prefix, all, pat, rep);
  }

  lemma DecimalBraceFree(i: int)
    ensures BraceFree(IntToDecimal(i))
  {
  }

  /** For a preset-shaped template, the URL of tile (x, y) is the template
      with the decimal zoom, x and y in the placeholder positions. */
  lemma FormatPresetUrl(prefix: string, ext: string, zoomlevel: int, x: int, y: int)
    requires BraceFree(prefix) && BraceFree(ext)
    ensures FormatUrl(PresetTemplate(prefix, ext), zoomlevel, x, y)
         == PresetUrl(prefix, IntToDecimal(zoomlevel), IntToDecimal(x), IntToDecimal(y), ext)
  {
    var sz, sx, sy := IntToDecimal(zoomlevel), IntToDecimal(x), IntToDecimal(y);
    DecimalBraceFree(zoomlevel);
    DecimalBraceFree(x);
    DecimalBraceFree(y);
    assert PresetTemplate(prefix, ext) == PresetUrl(prefix, "{z}", "{x}", "{y}", ext);
    ReplaceInPreset(prefix, "{z}", "{x}", "{y}", ext, "{z}", sz);
    ReplaceInPreset(prefix, sz, "{x}", "{y}", ext, "{x}", sx);
    ReplaceInPreset(prefix, sz, sx, "{y}", ext, "{y}", sy);
  }

  lemma DecimalSharesNoCharWith(i: int, pat: string)
    requires Placeholder(pat) && !IsDigit(pat[1]) && pat[1] != '-'
    ensures NoSharedChar(IntToDecimal(i), pat)
  {
    var s := IntToDecimal(i);
    forall j | 0 <= j < |s| ensures s[j] !in pat {
      assert pat == [pat[0], pat[1], pat[2]];
    }
  }

  /** No `{z}`, `{x}` or `{y}` token remains in a tile URL, whatever the template. */
  lemma FormatUrlLeavesNoPlaceholder(urlfmt: string, zoomlevel: int, x: int, y: int)
    ensures !Occurs(FormatUrl(urlfmt, zoomlevel, x, y), "{z}")
    ensures !Occurs(FormatUrl(urlfmt, zoomlevel, x, y), "{x}")
    ensures !Occurs(FormatUrl(urlfmt, zoomlevel, x, y), "{y}")
  {
    var sz, sx, sy := IntToDecimal(zoomlevel), IntToDecimal(x), IntToDecimal(y);
    var u1 := ReplaceAll(urlfmt, "{z}", sz);
    var u2 := ReplaceAll(u1, "{x}", sx);
    var u3 := ReplaceAll(u2, "{y}", sy);
    DecimalSharesNoCharWith(zoomlevel, "{z}");
    DecimalSharesNoCharWith(x, "{z}");
    DecimalSharesNoCharWith(x, "{x}");
    DecimalSharesNoCharWith(y, "{z}");
    DecimalSharesNoCharWith(y, "{x}");
    DecimalSharesNoCharWith(y, "{y}");
    ReplaceLeavesNoPattern(urlfmt, "{z}", sz);
    ReplaceLeavesNoPattern(u1, "{x}", sx);
    ReplaceLeavesNoPattern(u2, "{y}", sy);
    if Occurs(u2, "{z}") {
      ReplaceAddsNoOccurrence(u1, "{z}", "{x}", sx);
    }
    if Occurs(u3, "{z}") {
      ReplaceAddsNoOccurrence(u2, "{z}", "{y}", sy);
    }
    if Occurs(u3, "{x}") {
      ReplaceAddsNoOccurrence(u2, "{x}", "{y}", sy);
    }
  }
}
