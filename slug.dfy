/** The URL slug a blog post derives from its title
    (server/models/Blog.js, lines 42-54): lower-case the title, turn every
    run of characters outside `[a-z0-9]` into one hyphen, strip hyphens
    from both ends, and fall back to `blog-post-<clock>` when nothing is
    left. Lower-casing covers ASCII only; every other character counts as
    outside `[a-z0-9]`. */
module Slug {
  import opened Text

  /** A character of the class `[a-z0-9]`. */
  predicate IsLowerAlnum(c: char) {
    'a' <= c <= 'z' || '0' <= c <= '9'
  }

  /** An ASCII letter of either case or a digit. */
  predicate IsAsciiAlnum(c: char) {
    'a' <= c <= 'z' || 'A' <= c <= 'Z' || '0' <= c <= '9'
  }

  /** A character a slug may contain: `[a-z0-9-]`. */
  predicate IsSlugChar(c: char) {
    IsLowerAlnum(c) || c == '-'
  }

  /** Only slug characters, and never two hyphens in a row. */
  predicate Hyphenated(s: string) {
    && (forall i :: 0 <= i < |s| ==> IsSlugChar(s[i]))
    && (forall i :: 0 <= i < |s| - 1 ==> s[i] == '-' ==> s[i + 1] != '-')
  }

  /** The shape of every slug the hook produces: slug characters, no
      doubled hyphen, no hyphen at either end. */
  predicate IsCleanSlug(s: string) {
    Hyphenated(s) && (s == [] || (s[0] != '-' && s[|s| - 1] != '-'))
  }

  /** `toLowerCase` on one character, restricted to ASCII. */
  function LowerAscii(c: char): char {
    if 'A' <= c <= 'Z' then (c as int + 32) as char else c
  }

  /** `toLowerCase` on a string, restricted to ASCII. */
  function ToLowerAscii(s: string): (r: string)
    ensures |r| == |s|
    ensures forall i :: 0 <= i < |s| ==> (IsLowerAlnum(r[i]) <==> IsAsciiAlnum(s[i]))
    ensures forall i :: 0 <= i < |s| && !('A' <= s[i] <= 'Z') ==> r[i] == s[i]
  {
    seq(|s|, i requires 0 <= i < |s| => LowerAscii(s[i]))
  }

  /** `s` without its leading run of characters outside `[a-z0-9]`. */
  function SkipRun(s: string): (r: string)
    ensures |r| <= |s|
  {
    if s != [] && !IsLowerAlnum(s[0]) then SkipRun(s[1..]) else s
  }

  /** What `SkipRun` drops is a run outside `[a-z0-9]`, and what it keeps
      is the rest of the string, starting at a letter or digit. */
  lemma {:induction false} SkipRunShape(s: string)
    ensures var r := SkipRun(s);
      && r == s[|s| - |r|..]
      && (r == [] || IsLowerAlnum(r[0]))
      && (forall i :: 0 <= i < |s| - |r| ==> !IsLowerAlnum(s[i]))
  {
    if s != [] && !IsLowerAlnum(s[0]) {
      SkipRunShape(s[1..]);
      var r := SkipRun(s[1..]);
      assert forall i :: 1 <= i < |s| - |r| ==> s[i] == s[1..][i - 1];
    }
  }

  /** `s.replace(/[^a-z0-9]+/g, '-')`: each maximal run of characters
      outside `[a-z0-9]` becomes a single hyphen. */
  function Collapse(s: string): (r: string)
    ensures |r| <= |s|
    ensures r == [] <==> s == []
    decreases |s|
  {
    if s == [] then []
    else if IsLowerAlnum(s[0]) then [s[0]] + Collapse(s[1..])
    else "-" + Collapse(SkipRun(s[1..]))
  }

  /** Collapsing yields only `[a-z0-9-]` with no doubled hyphen; it is empty
      only for the empty string, and starts with the first character when
      that is a letter or digit, with a hyphen otherwise. */
  lemma {:induction false} CollapseShape(s: string)
    ensures var r := Collapse(s);
      && Hyphenated(r)
      && (r == [] <==> s == [])
      && (s != [] ==> r[0] == (if IsLowerAlnum(s[0]) then s[0] else '-'))
    decreases |s|
  {
    if s != [] {
      if IsLowerAlnum(s[0]) {
        CollapseShape(s[1..]);
      } else {
        SkipRunShape(s[1..]);
        CollapseShape(SkipRun(s[1..]));
      }
    }
  }

  /** How many hyphens `s` starts with. */
  function LeadingHyphens(s: string): (k: nat)
    ensures k <= |s|
    ensures forall i :: 0 <= i < k ==> s[i] == '-'
    ensures k < |s| ==> s[k] != '-'
  {
    if s != [] && s[0] == '-' then 1 + LeadingHyphens(s[1..]) else 0
  }

  /** How many hyphens `s` ends with. */
  function TrailingHyphens(s: string): (k: nat)
    ensures k <= |s|
    ensures forall i :: |s| - k <= i < |s| ==> s[i] == '-'
    ensures k < |s| ==> s[|s| - k - 1] != '-'
  {
    if s != [] && s[|s| - 1] == '-' then 1 + TrailingHyphens(s[..|s| - 1]) else 0
  }

  /** `s` without its leading hyphens. */
  function TrimLeadingHyphens(s: string): (r: string)
    ensures |r| <= |s| && r == s[|s| - |r|..]
    ensures r == [] || r[0] != '-'
    ensures forall i :: 0 <= i < |s| - |r| ==> s[i] == '-'
  {
    s[LeadingHyphens(s)..]
  }

  /** `s` without its trailing hyphens. */
  function TrimTrailingHyphens(s: string): (r: string)
    ensures |r| <= |s| && r == s[..|r|]
    ensures r == [] || r[|r| - 1] != '-'
    ensures forall i :: |r| <= i < |s| ==> s[i] == '-'
  {
    s[..|s| - TrailingHyphens(s)]
  }

  /** `s.replace(/^-*|-*$/g, '')`; on a hyphenated string the result is a
      clean slug. */
  function TrimHyphens(s: string): (r: string)
    ensures r == [] || (r[0] != '-' && r[|r| - 1] != '-')
    ensures exists a, b :: 0 <= a <= b <= |s| && r == s[a..b] && Outside(s, a, b, IsHyphen)
    ensures Hyphenated(s) ==> IsCleanSlug(r)
  {
    TrimHyphensClean(s);
    var u := TrimLeadingHyphens(s);
    var r := TrimTrailingHyphens(u);
    TrimHyphensSlice(s);
    assert forall i :: |s| - |u| + |r| <= i < |s| ==> s[i] == u[i - (|s| - |u|)];
    assert Outside(s, |s| - |u|, |s| - |u| + |r|, IsHyphen);
    r
  }

  /** The hyphen. */
  predicate IsHyphen(c: char) {
    c == '-'
  }

  /** The trimmed string has no hyphen at either end, and is a clean slug
      when the input had no doubled hyphens. */
  lemma TrimHyphensClean(s: string)
    ensures var r := TrimTrailingHyphens(TrimLeadingHyphens(s));
      && (r == [] || (r[0] != '-' && r[|r| - 1] != '-'))
      && (Hyphenated(s) ==> IsCleanSlug(r))
  {
    var u := TrimLeadingHyphens(s);
    var r := TrimTrailingHyphens(u);
    TrimHyphensSlice(s);
    if Hyphenated(s) {
      HyphenatedSlice(s, |s| - |u|, |s| - |u| + |r|);
    }
  }

  /** Trimming both ends leaves a slice of the input that does not start
      with a hyphen. */
  lemma TrimHyphensSlice(s: string)
    ensures var u := TrimLeadingHyphens(s);
      var r := TrimTrailingHyphens(u);
      && |s| - |u| + |r| <= |s|
      && r == s[|s| - |u|..|s| - |u| + |r|]
      && (r == [] || r[0] != '-')
  {
    var u := TrimLeadingHyphens(s);
    SuffixPrefix(s, u, TrimTrailingHyphens(u));
  }

  /** A prefix of a suffix is a slice, and starts where the suffix does. */
  lemma SuffixPrefix(s: string, u: string, r: string)
    requires |u| <= |s| && u == s[|s| - |u|..]
    requires |r| <= |u| && r == u[..|r|]
    requires u == [] || u[0] != '-'
    ensures r == s[|s| - |u|..|s| - |u| + |r|]
    ensures r == [] || r[0] != '-'
  {
    assert r != [] ==> r[0] == u[0];
  }

  /** Every slice of a hyphenated string is hyphenated. */
  lemma HyphenatedSlice(s: string, a: nat, b: nat)
    requires a <= b <= |s| && Hyphenated(s)
    ensures Hyphenated(s[a..b])
  {
    var t := s[a..b];
    assert forall i :: 0 <= i < |t| ==> t[i] == s[a + i];
  }

  /** The slug chain of lines 42-45, before the empty-result fallback. */
  function Normalize(title: string): (r: string)
    ensures IsCleanSlug(r)
  {
    var low := ToLowerAscii(title);
    CollapseShape(low);
    TrimHyphens(Collapse(low))
  }

  /** The fallback prefix of line 53. */
  const FallbackPrefix: string := "blog-post-"

  /** The slug assigned by lines 42-54, with `Date.now()` as the parameter
      `now`: never empty and always of the clean shape. */
  function Derive(title: string, now: nat): (slug: string)
    ensures slug != [] && IsCleanSlug(slug)
  {
    var generated := Normalize(title);
    if generated != [] then generated
    else
      FallbackClean(Decimal(now));
      FallbackPrefix + Decimal(now)
  }

  /** The fallback prefix followed by any non-empty digit string is a
      clean slug. */
  lemma FallbackClean(digits: string)
    requires digits != [] && AllDigits(digits)
    ensures IsCleanSlug(FallbackPrefix + digits)
  {
    var p := FallbackPrefix;
    var r := p + digits;
    assert |p| == 10;
    assert forall i :: 0 <= i < |p| ==> IsSlugChar(p[i]);
    assert forall i :: 0 <= i < |p| - 1 ==> p[i] == '-' ==> p[i + 1] != '-';
    assert forall i :: 0 <= i < |r| ==> r[i] == if i < |p| then p[i] else digits[i - |p|];
  }

  // ---------------------------------------------------------------------
  // The letters and digits of a title survive, lower-cased and in order.

  /** The subsequence of `[a-z0-9]` characters of `s`. */
  function KeepAlnum(s: string): string {
    if s == [] then []
    else if IsLowerAlnum(s[0]) then [s[0]] + KeepAlnum(s[1..])
    else KeepAlnum(s[1..])
  }

  lemma {:induction false} KeepAlnumAppend(a: string, b: string)
    ensures KeepAlnum(a + b) == KeepAlnum(a) + KeepAlnum(b)
  {
    if a == [] {
      assert a + b == b;
    } else {
      assert (a + b)[0] == a[0];
      assert (a + b)[1..] == a[1..] + b;
      KeepAlnumAppend(a[1..], b);
      if IsLowerAlnum(a[0]) {
        assert KeepAlnum(a + b) == [a[0]] + (KeepAlnum(a[1..]) + KeepAlnum(b));
      } else {
        assert KeepAlnum(a + b) == KeepAlnum(a[1..]) + KeepAlnum(b);
      }
    }
  }

  /** A string with no `[a-z0-9]` character keeps nothing. */
  lemma {:induction false} KeepAlnumNone(s: string)
    requires forall i :: 0 <= i < |s| ==> !IsLowerAlnum(s[i])
    ensures KeepAlnum(s) == []
  {
    if s != [] {
      KeepAlnumNone(s[1..]);
    }
  }

  /** Dropping a prefix with no `[a-z0-9]` character keeps the same. */
  lemma KeepAlnumDropPrefix(s: string, k: nat)
    requires k <= |s| && forall i :: 0 <= i < k ==> !IsLowerAlnum(s[i])
    ensures KeepAlnum(s[k..]) == KeepAlnum(s)
  {
    assert s == s[..k] + s[k..];
    KeepAlnumAppend(s[..k], s[k..]);
    KeepAlnumNone(s[..k]);
  }

  /** Dropping a suffix with no `[a-z0-9]` character keeps the same. */
  lemma KeepAlnumDropSuffix(s: string, k: nat)
    requires k <= |s| && forall i :: k <= i < |s| ==> !IsLowerAlnum(s[i])
    ensures KeepAlnum(s[..k]) == KeepAlnum(s)
  {
    assert s == s[..k] + s[k..];
    KeepAlnumAppend(s[..k], s[k..]);
    KeepAlnumNone(s[k..]);
  }

  lemma KeepAlnumSkipRun(s: string)
    ensures KeepAlnum(SkipRun(s)) == KeepAlnum(s)
  {
    SkipRunShape(s);
    KeepAlnumDropPrefix(s, |s| - |SkipRun(s)|);
  }

  lemma {:induction false} KeepAlnumCollapse(s: string)
    ensures KeepAlnum(Collapse(s)) == KeepAlnum(s)
    decreases |s|
  {
    if s != [] {
      if IsLowerAlnum(s[0]) {
        KeepAlnumCollapse(s[1..]);
        KeepAlnumAppend([s[0]], Collapse(s[1..]));
      } else {
        KeepAlnumCollapse(SkipRun(s[1..]));
        KeepAlnumSkipRun(s[1..]);
        KeepAlnumAppend("-", Collapse(SkipRun(s[1..])));
      }
    }
  }

  lemma KeepAlnumTrimHyphens(s: string)
    ensures KeepAlnum(TrimHyphens(s)) == KeepAlnum(s)
  {
    var u := TrimLeadingHyphens(s);
    KeepAlnumDropPrefix(s, |s| - |u|);
    KeepAlnumDropSuffix(u, |TrimTrailingHyphens(u)|);
  }

  /** The letters and digits of the derived slug are exactly those of the
      lower-cased title, in the same order. */
  lemma NormalizeKeepsAlnum(title: string)
    ensures KeepAlnum(Normalize(title)) == KeepAlnum(ToLowerAscii(title))
  {
    var low := ToLowerAscii(title);
    KeepAlnumCollapse(low);
    KeepAlnumTrimHyphens(Collapse(low));
  }

  /** Lower-casing turns exactly the ASCII letters and digits into `[a-z0-9]`. */
  lemma LowerAsciiAlnum(c: char)
    ensures IsLowerAlnum(LowerAscii(c)) <==> IsAsciiAlnum(c)
  {
  }

  /** A string with a `[a-z0-9]` character keeps something. */
  lemma {:induction false} KeepAlnumSome(s: string, i: nat)
    requires i < |s| && IsLowerAlnum(s[i])
    ensures KeepAlnum(s) != []
  {
    if i > 0 {
      KeepAlnumSome(s[1..], i - 1);
    }
  }

  /** A title with an ASCII letter or digit keeps a non-empty slug. */
  lemma NormalizeNonEmpty(title: string, i: nat)
    requires i < |title| && IsAsciiAlnum(title[i])
    ensures Normalize(title) != []
  {
    var low := ToLowerAscii(title);
    NormalizeKeepsAlnum(title);
    assert IsLowerAlnum(low[i]);
    KeepAlnumSome(low, i);
  }

  /** A title without ASCII letters or digits leaves nothing. */
  lemma NormalizeEmpty(title: string)
    requires forall i :: 0 <= i < |title| ==> !IsAsciiAlnum(title[i])
    ensures Normalize(title) == []
  {
    var low := ToLowerAscii(title);
    var r := Normalize(title);
    NormalizeKeepsAlnum(title);
    assert forall i :: 0 <= i < |low| ==> !IsLowerAlnum(low[i]);
    KeepAlnumNone(low);
    if r != [] {
      KeepAlnumSome(r, 0);
    }
  }

  /** The chain leaves nothing exactly when the title has no ASCII letter or
      digit; that is when the fallback of lines 51-54 applies. */
  lemma NormalizeEmptyIff(title: string)
    ensures Normalize(title) == [] <==> forall i :: 0 <= i < |title| ==> !IsAsciiAlnum(title[i])
  {
    if i :| 0 <= i < |title| && IsAsciiAlnum(title[i]) {
      NormalizeNonEmpty(title, i);
    } else {
      NormalizeEmpty(title);
    }
  }

  // ---------------------------------------------------------------------
  // Fixed point.

  /** Collapsing changes nothing in a string that is already hyphenated. */
  lemma {:induction false} CollapseHyphenated(s: string)
    requires Hyphenated(s)
    ensures Collapse(s) == s
    decreases |s|
  {
    if s != [] {
      assert Hyphenated(s[1..]);
      if IsLowerAlnum(s[0]) {
        CollapseHyphenated(s[1..]);
      } else {
        assert s[1..] == [] || IsLowerAlnum(s[1..][0]);
        assert SkipRun(s[1..]) == s[1..];
        CollapseHyphenated(s[1..]);
      }
    }
  }

  /** The slug chain maps a string to itself exactly when the string is a
      clean slug, so its output is a fixed point. */
  lemma NormalizeFixedPoint(s: string)
    ensures Normalize(s) == s <==> IsCleanSlug(s)
  {
    if IsCleanSlug(s) {
      assert ToLowerAscii(s) == s;
      CollapseHyphenated(s);
      assert TrimLeadingHyphens(s) == s;
      assert TrimTrailingHyphens(s) == s;
    }
  }

  /** Running the chain again on its own output changes nothing. */
  lemma NormalizeIdempotent(title: string)
    ensures Normalize(Normalize(title)) == Normalize(title)
  {
    NormalizeFixedPoint(Normalize(title));
  }

  // ---------------------------------------------------------------------
  // Where the hyphens go: the slug of a title is its words, lower-cased,
  // with one hyphen between neighbours and none at either end.

  /** A leading word of `[a-z0-9]` passes through collapsing unchanged. */
  lemma {:induction false} CollapseAlnumPrefix(a: string, rest: string)
    requires forall i :: 0 <= i < |a| ==> IsLowerAlnum(a[i])
    ensures Collapse(a + rest) == a + Collapse(rest)
  {
    if a == [] {
      assert a + rest == rest;
    } else {
      assert (a + rest)[0] == a[0];
      assert (a + rest)[1..] == a[1..] + rest;
      CollapseAlnumPrefix(a[1..], rest);
      assert Collapse(a + rest) == [a[0]] + (a[1..] + Collapse(rest));
    }
  }

  /** Skipping a run stops at the letter or digit that ends it. */
  lemma {:induction false} SkipRunPrefix(run: string, rest: string)
    requires forall i :: 0 <= i < |run| ==> !IsLowerAlnum(run[i])
    requires rest == [] || IsLowerAlnum(rest[0])
    ensures SkipRun(run + rest) == rest
  {
    if run != [] {
      assert (run + rest)[0] == run[0];
      assert (run + rest)[1..] == run[1..] + rest;
      SkipRunPrefix(run[1..], rest);
    } else {
      assert run + rest == rest;
    }
  }

  /** A run of other characters collapses to one hyphen. */
  lemma CollapseRun(run: string, rest: string)
    requires run != [] && forall i :: 0 <= i < |run| ==> !IsLowerAlnum(run[i])
    requires rest == [] || IsLowerAlnum(rest[0])
    ensures Collapse(run + rest) == "-" + Collapse(rest)
  {
    assert (run + rest)[1..] == run[1..] + rest;
    SkipRunPrefix(run[1..], rest);
  }

  /** A word of `[a-z0-9]` followed by a run of other characters collapses
      to the word and one hyphen, whatever follows the run. */
  lemma CollapseWordRun(w: string, run: string, rest: string)
    requires forall i :: 0 <= i < |w| ==> IsLowerAlnum(w[i])
    requires run != [] && forall i :: 0 <= i < |run| ==> !IsLowerAlnum(run[i])
    requires rest == [] || IsLowerAlnum(rest[0])
    ensures Collapse(w + run + rest) == w + "-" + Collapse(rest)
  {
    var t := run + rest;
    assert w + run + rest == w + t;
    CollapseRun(run, rest);
    CollapseAlnumPrefix(w, t);
    assert w + ("-" + Collapse(rest)) == w + "-" + Collapse(rest);
  }

  /** A word of `[a-z0-9]` alone is left as it is. */
  lemma CollapseWord(w: string)
    requires forall i :: 0 <= i < |w| ==> IsLowerAlnum(w[i])
    ensures Collapse(w) == w
  {
    CollapseAlnumPrefix(w, []);
    assert w + [] == w;
  }

  /** Lower-casing works character by character. */
  lemma LowerAppend(a: string, b: string)
    ensures ToLowerAscii(a + b) == ToLowerAscii(a) + ToLowerAscii(b)
  {
  }

  /** Lower-casing a run without ASCII letters or digits leaves a run
      without `[a-z0-9]`; lower-casing a string that starts with one leaves
      a string that starts with one. */
  lemma LowerRunAndStart(run: string, t: string)
    requires forall i :: 0 <= i < |run| ==> !IsAsciiAlnum(run[i])
    requires t == [] || IsAsciiAlnum(t[0])
    ensures forall i :: 0 <= i < |run| ==> !IsLowerAlnum(ToLowerAscii(run)[i])
    ensures ToLowerAscii(t) == [] || IsLowerAlnum(ToLowerAscii(t)[0])
  {
    forall i | 0 <= i < |run|
      ensures !IsLowerAlnum(ToLowerAscii(run)[i])
    {
      LowerAsciiAlnum(run[i]);
    }
    if t != [] {
      LowerAsciiAlnum(t[0]);
    }
  }

  /** A word of ASCII letters and digits lower-cases to `[a-z0-9]`. */
  lemma LowerWord(w: string)
    requires forall i :: 0 <= i < |w| ==> IsAsciiAlnum(w[i])
    ensures forall i :: 0 <= i < |ToLowerAscii(w)| ==> IsLowerAlnum(ToLowerAscii(w)[i])
  {
    forall i | 0 <= i < |w|
      ensures IsLowerAlnum(ToLowerAscii(w)[i])
    {
      LowerAsciiAlnum(w[i]);
    }
  }

  /** Trailing hyphens are counted inside the last piece when that piece
      is not all hyphens. */
  lemma {:induction false} TrailingHyphensAppend(p: string, c: string)
    requires TrailingHyphens(c) < |c|
    ensures TrailingHyphens(p + c) == TrailingHyphens(c)
    decreases |c|
  {
    var s := p + c;
    assert s[|s| - 1] == c[|c| - 1];
    if c[|c| - 1] == '-' {
      assert s[..|s| - 1] == p + c[..|c| - 1];
      TrailingHyphensAppend(p, c[..|c| - 1]);
    }
  }

  /** Stripping hyphens from a word, a hyphen and a collapsed rest that
      starts with a letter or digit strips only the rest's tail. */
  lemma TrimHyphensWordThen(w: string, c: string)
    requires w != [] && IsLowerAlnum(w[0])
    requires c == [] || IsLowerAlnum(c[0])
    ensures c == [] ==> TrimHyphens(w + "-" + c) == TrimHyphens(w)
    ensures c != [] ==> TrimHyphens(w + "-" + c) == w + "-" + TrimHyphens(c)
  {
    var s := w + "-" + c;
    assert s[0] == w[0];
    assert TrimLeadingHyphens(s) == s;
    if c == [] {
      assert s == w + "-";
      assert s[..|s| - 1] == w;
      assert TrimLeadingHyphens(w) == w;
    } else {
      TrimTrailingAppend(w + "-", c);
      assert TrimLeadingHyphens(c) == c;
    }
  }

  /** Stripping the trailing hyphens of a string that ends in a piece not
      all hyphens strips them from that piece. */
  lemma TrimTrailingAppend(p: string, c: string)
    requires c != [] && c[0] != '-'
    ensures TrimTrailingHyphens(p + c) == p + TrimTrailingHyphens(c)
  {
    var k := TrailingHyphens(c);
    assert k < |c|;
    TrailingHyphensAppend(p, c);
    var s := p + c;
    assert s[..|s| - k] == p + c[..|c| - k];
  }

  /** Separators in front of a title leave no trace in its slug. */
  lemma NormalizeLeadingRun(run: string, t: string)
    requires forall i :: 0 <= i < |run| ==> !IsAsciiAlnum(run[i])
    requires t == [] || IsAsciiAlnum(t[0])
    ensures Normalize(run + t) == Normalize(t)
  {
    if run != [] {
      var lr, lt := ToLowerAscii(run), ToLowerAscii(t);
      LowerAppend(run, t);
      LowerRunAndStart(run, t);
      CollapseRun(lr, lt);
      var c := Collapse(lt);
      CollapseShape(lt);
      var s := "-" + c;
      assert s[1..] == c;
      assert LeadingHyphens(s) == 1;
      assert TrimLeadingHyphens(s) == c == TrimLeadingHyphens(c);
    } else {
      assert run + t == t;
    }
  }

  /** The lower-case core of `NormalizeWordRun`: a word of `[a-z0-9]`, a
      run of other characters, then the rest. */
  lemma SlugWordRun(w: string, run: string, t: string)
    requires w != [] && forall i :: 0 <= i < |w| ==> IsLowerAlnum(w[i])
    requires run != [] && forall i :: 0 <= i < |run| ==> !IsLowerAlnum(run[i])
    requires t == [] || IsLowerAlnum(t[0])
    ensures t == [] ==> TrimHyphens(Collapse(w + run + t)) == w
    ensures t != [] ==> TrimHyphens(Collapse(w + run + t)) == w + "-" + TrimHyphens(Collapse(t))
  {
    var c := Collapse(t);
    CollapseWordRun(w, run, t);
    CollapseShape(t);
    TrimHyphensWordThen(w, c);
    TrimHyphensWord(w);
  }

  /** A word of `[a-z0-9]` has no hyphen to strip. */
  lemma TrimHyphensWord(w: string)
    requires w != [] && forall i :: 0 <= i < |w| ==> IsLowerAlnum(w[i])
    ensures TrimHyphens(w) == w
  {
    assert LeadingHyphens(w) == 0;
    assert TrailingHyphens(w) == 0;
  }

  /** A word of ASCII letters and digits followed by a run of separators:
      the slug is the lower-cased word, then one hyphen and the slug of the
      rest when something follows, and nothing more when the title ends
      there. */
  lemma NormalizeWordRun(w: string, run: string, t: string)
    requires w != [] && forall i :: 0 <= i < |w| ==> IsAsciiAlnum(w[i])
    requires run != [] && forall i :: 0 <= i < |run| ==> !IsAsciiAlnum(run[i])
    requires t == [] || IsAsciiAlnum(t[0])
    ensures t == [] ==> Normalize(w + run + t) == ToLowerAscii(w)
    ensures t != [] ==> Normalize(w + run + t) == ToLowerAscii(w) + "-" + Normalize(t)
  {
    var lw, lr, lt := ToLowerAscii(w), ToLowerAscii(run), ToLowerAscii(t);
    LowerAppend(w + run, t);
    LowerAppend(w, run);
    assert ToLowerAscii(w + run + t) == lw + lr + lt;
    LowerRunAndStart(run, t);
    LowerWord(w);
    SlugWordRun(lw, lr, lt);
  }

  /** A lone word of ASCII letters and digits slugs to itself, lower-cased. */
  lemma NormalizeWord(w: string)
    requires forall i :: 0 <= i < |w| ==> IsAsciiAlnum(w[i])
    ensures Normalize(w) == ToLowerAscii(w)
  {
    LowerWord(w);
    var lw := ToLowerAscii(w);
    CollapseWord(lw);
    if lw != [] {
      TrimHyphensWord(lw);
    }
  }

  /** Re-deriving from a derived slug, at any clock value, gives it back. */
  lemma DeriveIdempotent(title: string, now: nat, later: nat)
    ensures Derive(Derive(title, now), later) == Derive(title, now)
  {
    NormalizeFixedPoint(Derive(title, now));
  }

  /** The clock only matters for titles with no letter or digit. */
  lemma DeriveClockIndependent(title: string, now: nat, later: nat)
    requires exists i :: 0 <= i < |title| && IsAsciiAlnum(title[i])
    ensures Derive(title, now) == Derive(title, later) == Normalize(title)
  {
    NormalizeEmptyIff(title);
  }

  /** A title with no letter or digit gets `blog-post-` and the clock in
      decimal digits. */
  lemma DeriveFallback(title: string, now: nat)
    requires forall i :: 0 <= i < |title| ==> !IsAsciiAlnum(title[i])
    ensures Derive(title, now) == FallbackPrefix + Decimal(now)
    ensures var digits := Derive(title, now)[|FallbackPrefix|..];
      AllDigits(digits) && DecimalValue(digits) == now
  {
    NormalizeEmptyIff(title);
    DecimalRoundTrip(now);
    assert Derive(title, now)[|FallbackPrefix|..] == Decimal(now);
  }
}
