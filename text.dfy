/**
 * The Python string operations the pipeline relies on, over `string` (a sequence of
 * characters): `str.strip`, `str.split`, `str.join`, `str.lower`, `str.replace`,
 * `str(int)`, the substring test, and the whitespace normalisation
 * `re.sub(r"\s+", " ", s).strip()` shared by the scraper and the CV reader.
 */
module Text {

  /** The characters for which Python's `str.isspace()` holds; `\s`, `strip()` and `split()` use the same set. */
  predicate IsSpace(c: char) {
    c == ' ' || ('\t' <= c <= '\r') || ('\U{1C}' <= c <= '\U{1F}') || c == '\U{85}' || c == '\U{A0}'
    || c == '\U{1680}' || ('\U{2000}' <= c <= '\U{200A}') || c == '\U{2028}' || c == '\U{2029}'
    || c == '\U{202F}' || c == '\U{205F}' || c == '\U{3000}'
  }

  predicate IsDigit(c: char) {
    '0' <= c <= '9'
  }

  predicate AllSpace(s: string) {
    forall i :: 0 <= i < |s| ==> IsSpace(s[i])
  }

  // ---------------------------------------------------------------------------------------
  // strip

  /** Drops the leading characters satisfying `drop`. */
  function TrimStartBy(s: string, drop: char -> bool): (r: string)
    ensures |r| <= |s| && r == s[|s| - |r|..]
    ensures forall k :: 0 <= k < |s| - |r| ==> drop(s[k])
    ensures r == [] || !drop(r[0])
  {
    if s != [] && drop(s[0]) then
      var r := TrimStartBy(s[1..], drop);
      assert forall k :: 1 <= k < |s| ==> s[k] == s[1..][k - 1];
      r
    else s
  }

  /** Drops the trailing characters satisfying `drop`. */
  function TrimEndBy(s: string, drop: char -> bool): (r: string)
    ensures |r| <= |s| && r == s[..|r|]
    ensures forall k :: |r| <= k < |s| ==> drop(s[k])
    ensures r == [] || !drop(r[|r| - 1])
  {
    if s != [] && drop(s[|s| - 1]) then
      var r := TrimEndBy(s[..|s| - 1], drop);
      assert forall k :: 0 <= k < |s| - 1 ==> s[k] == s[..|s| - 1][k];
      r
    else s
  }

  /** Python's `s.strip(chars)`, with `drop` deciding membership in `chars`. */
  function StripBy(s: string, drop: char -> bool): string {
    TrimEndBy(TrimStartBy(s, drop), drop)
  }

  /** Python's `s.strip()`. */
  function Strip(s: string): string {
    StripBy(s, IsSpace)
  }

  /** Neither end of `s` is a character `drop` removes. */
  predicate StrippedBy(s: string, drop: char -> bool) {
    s == [] || (!drop(s[0]) && !drop(s[|s| - 1]))
  }

  predicate Stripped(s: string) {
    StrippedBy(s, IsSpace)
  }

  /** The result of a strip has no removable character at either end, and a strip removes only such characters. */
  lemma StripByEnds(s: string, drop: char -> bool)
    ensures StrippedBy(StripBy(s, drop), drop)
    ensures |StripBy(s, drop)| <= |s|
  {
    var t := TrimStartBy(s, drop);
    var r := TrimEndBy(t, drop);
    if r != [] {
      assert r[0] == t[0];
    }
  }

  /** Removing leading removable characters stops at the first character that is not removable. */
  lemma {:induction false} TrimStartAfter(a: string, y: string, drop: char -> bool)
    requires forall i :: 0 <= i < |a| ==> drop(a[i])
    requires y == [] || !drop(y[0])
    ensures TrimStartBy(a + y, drop) == y
  {
    if a != [] {
      assert (a + y)[0] == a[0];
      assert (a + y)[1..] == a[1..] + y;
      TrimStartAfter(a[1..], y, drop);
    } else {
      assert a + y == y;
    }
  }

  /** Removing trailing removable characters stops at the last character that is not removable. */
  lemma {:induction false} TrimEndBefore(y: string, b: string, drop: char -> bool)
    requires forall i :: 0 <= i < |b| ==> drop(b[i])
    requires y == [] || !drop(y[|y| - 1])
    ensures TrimEndBy(y + b, drop) == y
  {
    if b != [] {
      var s := y + b;
      assert s[|s| - 1] == b[|b| - 1];
      assert s[..|s| - 1] == y + b[..|b| - 1];
      TrimEndBefore(y, b[..|b| - 1], drop);
    } else {
      assert y + b == y;
    }
  }

  /** A string already stripped is left unchanged. */
  lemma StripByFixed(s: string, drop: char -> bool)
    requires StrippedBy(s, drop)
    ensures StripBy(s, drop) == s
  {
    TrimStartAfter([], s, drop);
    TrimEndBefore(s, [], drop);
  }

  lemma {:induction false} StripIdempotent(s: string)
    ensures Strip(Strip(s)) == Strip(s)
  {
    StripByEnds(s, IsSpace);
    StripByFixed(Strip(s), IsSpace);
  }

  /** Stripping `a + x + b` where `a` and `b` consist of removable characters and `x` is stripped gives `x`. */
  lemma StripByPadded(a: string, x: string, b: string, drop: char -> bool)
    requires forall i :: 0 <= i < |a| ==> drop(a[i])
    requires forall i :: 0 <= i < |b| ==> drop(b[i])
    requires StrippedBy(x, drop)
    ensures StripBy(a + x + b, drop) == x
  {
    if x != [] {
      assert a + x + b == a + (x + b);
      TrimStartAfter(a, x + b, drop);
      TrimEndBefore(x, b, drop);
    } else {
      assert a + x + b == (a + b) + [];
      TrimStartAfter(a + b, [], drop);
    }
  }

  /** A second strip by another set leaves a string the first strip reduced to a stripped core. */
  lemma StripByTwicePadded(a: string, x: string, b: string, first: char -> bool, second: char -> bool)
    requires forall i :: 0 <= i < |a| ==> first(a[i])
    requires forall i :: 0 <= i < |b| ==> first(b[i])
    requires StrippedBy(x, first) && StrippedBy(x, second)
    ensures StripBy(StripBy(a + x + b, first), second) == x
  {
    StripByPadded(a, x, b, first);
    StripByFixed(x, second);
  }

  /** A strip that finds nothing to remove, followed by one that removes a padding. */
  lemma StripByThenPadded(a: string, x: string, b: string, first: char -> bool, second: char -> bool)
    requires StrippedBy(a + x + b, first)
    requires forall i :: 0 <= i < |a| ==> second(a[i])
    requires forall i :: 0 <= i < |b| ==> second(b[i])
    requires StrippedBy(x, second)
    ensures StripBy(StripBy(a + x + b, first), second) == x
  {
    calc {
      StripBy(StripBy(a + x + b, first), second);
      == { StripByFixed(a + x + b, first); }
      StripBy(a + x + b, second);
      == { StripByPadded(a, x, b, second); }
      x;
    }
  }

  /** Trailing removal never eats into a prefix that ends in a character it keeps. */
  lemma {:induction false} TrimEndKeepsPrefix(h: string, y: string, drop: char -> bool)
    requires h != [] && !drop(h[|h| - 1])
    ensures StartsWith(TrimEndBy(h + y, drop), h)
    decreases |y|
  {
    var s := h + y;
    if y == [] {
      assert s == h + [];
      TrimEndBefore(h, [], drop);
    } else {
      assert s[|s| - 1] == y[|y| - 1];
      if drop(s[|s| - 1]) {
        assert s[..|s| - 1] == h + y[..|y| - 1];
        TrimEndKeepsPrefix(h, y[..|y| - 1], drop);
      }
    }
  }

  /** Stripping a string that begins with a non-empty stripped piece keeps that piece in front. */
  lemma StripKeepsPrefix(h: string, y: string)
    requires h != [] && Stripped(h)
    ensures StartsWith(Strip(h + y), h)
  {
    TrimStartAfter([], h + y, IsSpace);
    assert [] + (h + y) == h + y;
    TrimEndKeepsPrefix(h, y, IsSpace);
  }

  /** A strip removes characters and adds none. */
  lemma StripByKeepsOut(s: string, c: char, drop: char -> bool)
    requires c !in s
    ensures c !in StripBy(s, drop)
  {
    var t := TrimStartBy(s, drop);
    var r := TrimEndBy(t, drop);
    assert c !in t by {
      forall k | 0 <= k < |t|
        ensures t[k] != c
      {
        assert t[k] == s[|s| - |t| + k];
      }
    }
    forall k | 0 <= k < |r|
      ensures r[k] != c
    {
      assert r[k] == t[k];
    }
  }

  /** When a strip yields the empty string, every character was removable. */
  lemma StripByEmpty(s: string, drop: char -> bool)
    requires StripBy(s, drop) == []
    ensures forall i :: 0 <= i < |s| ==> drop(s[i])
  {
    var t := TrimStartBy(s, drop);
    forall i | 0 <= i < |s|
      ensures drop(s[i])
    {
      if i >= |s| - |t| {
        assert s[i] == t[i - (|s| - |t|)];
      }
    }
  }

  // ---------------------------------------------------------------------------------------
  // lower-case, prefixes, substrings

  /** Python's `c.lower()` restricted to ASCII letters. */
  function LowerChar(c: char): char {
    if 'A' <= c <= 'Z' then (c as int + 32) as char else c
  }

  function Lower(s: string): (r: string)
    ensures |r| == |s|
  {
    seq(|s|, i requires 0 <= i < |s| => LowerChar(s[i]))
  }

  predicate StartsWith(s: string, prefix: string) {
    |prefix| <= |s| && s[..|prefix|] == prefix
  }

  predicate EndsWith(s: string, suffix: string) {
    |suffix| <= |s| && s[|s| - |suffix|..] == suffix
  }

  /** A one-character prefix or suffix is just the first or last character. */
  lemma EndsWithChar(s: string, c: char)
    ensures StartsWith(s, [c]) <==> s != [] && s[0] == c
    ensures EndsWith(s, [c]) <==> s != [] && s[|s| - 1] == c
  {
    if s != [] {
      assert s[..1] == [s[0]];
      assert s[|s| - 1..] == [s[|s| - 1]];
    }
  }

  predicate OccursAt(s: string, needle: string, i: nat) {
    i + |needle| <= |s| && s[i..i + |needle|] == needle
  }

  /** Python's `needle in s`. */
  predicate Contains(s: string, needle: string) {
    exists i: nat :: i <= |s| && OccursAt(s, needle, i)
  }

  /** Lower-casing works character by character, so it distributes over concatenation. */
  lemma LowerConcat(a: string, b: string)
    ensures Lower(a + b) == Lower(a) + Lower(b)
  {
  }

  /** Lower-casing lower-cased text changes nothing. */
  lemma LowerIdempotent(s: string)
    ensures Lower(Lower(s)) == Lower(s)
  {
  }

  /** A string contains every piece it is built from. */
  lemma ContainsMiddle(a: string, p: string, b: string)
    ensures Contains(a + p + b, p)
  {
    assert OccursAt(a + p + b, p, |a|) by {
      assert (a + p + b)[|a|..|a| + |p|] == p;
    }
  }

  // ---------------------------------------------------------------------------------------
  // split and join

  function IndexOf(s: string, c: char): (i: nat)
    requires c in s
    ensures i < |s| && s[i] == c && c !in s[..i]
  {
    if s[0] == c then 0 else 1 + IndexOf(s[1..], c)
  }

  /** Python's `s.split(sep)` for a one-character separator: the pieces between separators, empty ones included. */
  function Split(s: string, sep: char): (parts: seq<string>)
    ensures |parts| >= 1
    ensures forall i :: 0 <= i < |parts| ==> sep !in parts[i]
    decreases |s|
  {
    if sep !in s then [s]
    else
      var i := IndexOf(s, sep);
      [s[..i]] + Split(s[i + 1..], sep)
  }

  /** Python's `sep.join(parts)`. */
  function Join(parts: seq<string>, sep: string): string {
    if |parts| == 0 then ""
    else if |parts| == 1 then parts[0]
    else parts[0] + sep + Join(parts[1..], sep)
  }

  /** Joining the pieces of a split with the separator gives back the original string. */
  lemma {:induction false} JoinSplit(s: string, sep: char)
    ensures Join(Split(s, sep), [sep]) == s
    decreases |s|
  {
    if sep in s {
      var i := IndexOf(s, sep);
      var rest := s[i + 1..];
      JoinSplit(rest, sep);
      var parts := Split(s, sep);
      assert parts == [s[..i]] + Split(rest, sep);
      assert parts[1..] == Split(rest, sep);
      assert s == s[..i] + [sep] + rest;
    }
  }

  lemma {:induction false} IndexOfAfter(p: string, c: char, t: string)
    requires c !in p
    ensures c in p + [c] + t && IndexOf(p + [c] + t, c) == |p|
  {
    var s := p + [c] + t;
    assert s[|p|] == c;
    if p != [] {
      assert s[0] == p[0];
      assert s[1..] == p[1..] + [c] + t;
      IndexOfAfter(p[1..], c, t);
    }
  }

  /** Splitting a join of separator-free pieces gives back the pieces. */
  lemma {:induction false} SplitJoin(parts: seq<string>, sep: char)
    requires |parts| >= 1
    requires forall i :: 0 <= i < |parts| ==> sep !in parts[i]
    ensures Split(Join(parts, [sep]), sep) == parts
  {
    if |parts| > 1 {
      var s := Join(parts, [sep]);
      var rest := Join(parts[1..], [sep]);
      assert s == parts[0] + [sep] + rest;
      assert s[|parts[0]|] == sep;
      var i := IndexOf(s, sep);
      IndexOfAfter(parts[0], sep, rest);
      assert i == |parts[0]|;
      assert s[..i] == parts[0];
      assert s[i + 1..] == rest;
      SplitJoin(parts[1..], sep);
    }
  }

  /** A join of at least one piece starts with the first piece and ends with the last. */
  lemma {:induction false} JoinEnds(parts: seq<string>, sep: string)
    requires |parts| >= 1
    ensures StartsWith(Join(parts, sep), parts[0])
    ensures EndsWith(Join(parts, sep), parts[|parts| - 1])
  {
    if |parts| > 1 {
      JoinEnds(parts[1..], sep);
      var rest := Join(parts[1..], sep);
      var s := Join(parts, sep);
      assert s == parts[0] + sep + rest;
      assert s[|s| - |parts[|parts| - 1]|..] == rest[|rest| - |parts[|parts| - 1]|..];
    }
  }

  /** `Join` distributes over concatenation of non-empty piece lists. */
  lemma {:induction false} JoinAppend(xs: seq<string>, ys: seq<string>, sep: string)
    requires |xs| >= 1 && |ys| >= 1
    ensures Join(xs + ys, sep) == Join(xs, sep) + sep + Join(ys, sep)
  {
    if |xs| == 1 {
      assert (xs + ys)[1..] == ys;
    } else {
      JoinAppend(xs[1..], ys, sep);
      assert (xs + ys)[1..] == xs[1..] + ys;
    }
  }

  // ---------------------------------------------------------------------------------------
  // whitespace normalisation

  predicate IsWord(w: string) {
    w != [] && forall i :: 0 <= i < |w| ==> !IsSpace(w[i])
  }

  predicate AllWords(ws: seq<string>) {
    forall i :: 0 <= i < |ws| ==> IsWord(ws[i])
  }

  /** Length of the run of non-whitespace characters at the start of `s`. */
  function WordLength(s: string): (k: nat)
    ensures k <= |s|
    ensures forall i :: 0 <= i < k ==> !IsSpace(s[i])
    ensures k < |s| ==> IsSpace(s[k])
  {
    if s == [] || IsSpace(s[0]) then 0 else 1 + WordLength(s[1..])
  }

  /** The maximal runs of non-whitespace characters of `s`, in order (Python's `s.split()`). */
  function Words(s: string): (ws: seq<string>)
    ensures AllWords(ws)
    decreases |s|
  {
    if s == [] then []
    else if IsSpace(s[0]) then Words(s[1..])
    else
      var k := WordLength(s);
      [s[..k]] + Words(s[k..])
  }

  /** `re.sub(r"\s+", " ", s)`: every maximal run of whitespace becomes a single space. */
  function Collapse(s: string): string
    decreases |s|
  {
    if s == [] then []
    else if IsSpace(s[0]) then " " + Collapse(TrimStartBy(s[1..], IsSpace))
    else [s[0]] + Collapse(s[1..])
  }

  /** `re.sub(r"\s+", " ", s).strip()`. */
  function Normalize(s: string): string {
    Strip(Collapse(s))
  }

  /** No whitespace at either end, and the only whitespace is single spaces between non-whitespace characters. */
  predicate Normalized(s: string) {
    forall i :: 0 <= i < |s| && IsSpace(s[i]) ==> s[i] == ' ' && 0 < i < |s| - 1 && !IsSpace(s[i + 1])
  }

  /** Appending text that starts with whitespace does not change where the first word ends. */
  lemma {:induction false} WordLengthAppend(a: string, t: string)
    requires t == [] || IsSpace(t[0])
    ensures WordLength(a + t) == WordLength(a)
  {
    if a == [] {
      assert a + t == t;
    } else {
      assert (a + t)[0] == a[0];
      if !IsSpace(a[0]) {
        assert (a + t)[1..] == a[1..] + t;
        WordLengthAppend(a[1..], t);
      }
    }
  }

  lemma {:induction false} WordLengthOfWord(w: string)
    requires forall i :: 0 <= i < |w| ==> !IsSpace(w[i])
    ensures WordLength(w) == |w|
  {
    if w != [] {
      WordLengthOfWord(w[1..]);
    }
  }

  /** A string that starts with a whole word splits into that word and the words of the rest. */
  lemma WordsAfterWord(w: string, t: string)
    requires IsWord(w)
    requires t == [] || IsSpace(t[0])
    ensures Words(w + t) == [w] + Words(t)
  {
    var s := w + t;
    WordLengthAppend(w, t);
    WordLengthOfWord(w);
    assert s[0] == w[0];
    assert s[..|w|] == w && s[|w|..] == t;
  }

  /** Separating two strings by a whitespace character keeps their words apart. */
  lemma {:induction false} WordsConcat(a: string, c: char, b: string)
    requires IsSpace(c)
    ensures Words(a + [c] + b) == Words(a) + Words(b)
    decreases |a|
  {
    var s := a + [c] + b;
    if a == [] {
      assert s[1..] == b;
    } else if IsSpace(a[0]) {
      WordsConcat(a[1..], c, b);
      assert s[1..] == a[1..] + [c] + b;
    } else {
      var ka := WordLength(a);
      WordsConcat(a[ka..], c, b);
      FirstWordOfConcat(a, c, b);
      PrependWord(Words(s), a[..ka], Words(a[ka..] + [c] + b), Words(a[ka..]), Words(b), Words(a));
    }
  }

  /** The first word of `a + [c] + b` is the first word of `a` when `a` starts with one. */
  lemma FirstWordOfConcat(a: string, c: char, b: string)
    requires a != [] && !IsSpace(a[0]) && IsSpace(c)
    ensures Words(a + [c] + b) == [a[..WordLength(a)]] + Words(a[WordLength(a)..] + [c] + b)
    ensures Words(a) == [a[..WordLength(a)]] + Words(a[WordLength(a)..])
  {
    var s := a + [c] + b;
    var ka := WordLength(a);
    var k := WordLength(s);
    assert s[0] == a[0];
    assert s == a + ([c] + b);
    WordLengthAppend(a, [c] + b);
    assert s[..k] == a[..ka];
    assert s[k..] == a[ka..] + [c] + b;
  }

  lemma PrependWord<T>(ws: seq<T>, w: T, x: seq<T>, y: seq<T>, z: seq<T>, wa: seq<T>)
    requires ws == [w] + x && x == y + z && wa == [w] + y
    ensures ws == wa + z
  {
  }

  /** An all-whitespace string has no words. */
  lemma {:induction false} AllSpaceNoWords(s: string)
    requires AllSpace(s)
    ensures Words(s) == []
  {
    if s != [] {
      AllSpaceNoWords(s[1..]);
    }
  }

  /** A string without words is all whitespace. */
  lemma {:induction false} NoWordsAllSpace(s: string)
    requires Words(s) == []
    ensures AllSpace(s)
  {
    if s != [] {
      NoWordsAllSpace(s[1..]);
    }
  }

  lemma {:induction false} WordsTrimStart(s: string)
    ensures Words(TrimStartBy(s, IsSpace)) == Words(s)
  {
    if s != [] && IsSpace(s[0]) {
      WordsTrimStart(s[1..]);
    }
  }

  lemma {:induction false} CollapseAfterWord(w: string, t: string)
    requires forall i :: 0 <= i < |w| ==> !IsSpace(w[i])
    ensures Collapse(w + t) == w + Collapse(t)
  {
    if w != [] {
      CollapseAfterWord(w[1..], t);
      assert (w + t)[0] == w[0];
      assert (w + t)[1..] == w[1..] + t;
      assert Collapse(w + t) == [w[0]] + Collapse(w[1..] + t);
      assert w == [w[0]] + w[1..];
    } else {
      assert w + t == t;
    }
  }

  ghost function Lead(s: string): string {
    if s != [] && IsSpace(s[0]) then " " else ""
  }

  ghost function Trail(s: string): string {
    if Words(s) != [] && IsSpace(s[|s| - 1]) then " " else ""
  }

  /**
   * `Collapse(s)` is the words of `s` separated by single spaces, with one space in front
   * when `s` starts with whitespace and one at the end when `s` has words and ends with whitespace.
   */
  lemma {:induction false} CollapseShape(s: string)
    ensures Collapse(s) == Lead(s) + Join(Words(s), " ") + Trail(s)
    decreases |s|, 1
  {
    if s == [] {
    } else if IsSpace(s[0]) {
      CollapseShapeSpace(s);
    } else {
      CollapseShapeWord(s);
    }
  }

  lemma {:induction false} CollapseShapeSpace(s: string)
    requires s != [] && IsSpace(s[0])
    ensures Collapse(s) == Lead(s) + Join(Words(s), " ") + Trail(s)
    decreases |s|, 0
  {
    var t := TrimStartBy(s[1..], IsSpace);
    SkipSpaceRun(s);
    if t != [] {
      CollapseShape(t);
      SpaceCase(Collapse(s), Collapse(t), Lead(t), Join(Words(t), " "), Trail(t), Lead(s), Join(Words(s), " "), Trail(s));
    }
  }

  lemma SpaceCase(cs: string, ct: string, lt: string, jt: string, tt: string, ls: string, js: string, ts: string)
    requires cs == " " + ct && ct == lt + jt + tt && lt == "" && jt == js && tt == ts && ls == " "
    ensures cs == ls + js + ts
  {
  }

  /** Skipping a run of leading whitespace: one space, then the collapse of the rest, with the same words and last character. */
  lemma SkipSpaceRun(s: string)
    requires s != [] && IsSpace(s[0])
    ensures Collapse(s) == " " + Collapse(TrimStartBy(s[1..], IsSpace))
    ensures Lead(s) == " "
    ensures Words(TrimStartBy(s[1..], IsSpace)) == Words(s)
    ensures Lead(TrimStartBy(s[1..], IsSpace)) == ""
    ensures Trail(TrimStartBy(s[1..], IsSpace)) == Trail(s)
    ensures TrimStartBy(s[1..], IsSpace) == [] ==> Collapse(s) == " " && Words(s) == [] && Trail(s) == []
  {
    var t := TrimStartBy(s[1..], IsSpace);
    assert Words(t) == Words(s) by {
      WordsTrimStart(s[1..]);
    }
    if t != [] {
      SameLast(s, t);
    }
  }

  lemma SameLast(s: string, t: string)
    requires t != [] && |t| <= |s| && t == s[|s| - |t|..]
    requires Words(t) == Words(s)
    ensures Trail(t) == Trail(s)
  {
    assert t[|t| - 1] == s[|s| - 1];
  }

  lemma {:induction false} CollapseShapeWord(s: string)
    requires s != [] && !IsSpace(s[0])
    ensures Collapse(s) == Lead(s) + Join(Words(s), " ") + Trail(s)
    decreases |s|, 0
  {
    var k := WordLength(s);
    var w := s[..k];
    var r := s[k..];
    WordStep(s);
    if r == [] {
      assert s == w;
      assert Trail(s) == "" by {
        assert s[|s| - 1] == w[|w| - 1];
      }
    } else {
      CollapseShape(r);
      RestAfterWord(s);
      if Words(r) == [] {
        Concat3(Collapse(s), w, Collapse(r), " ");
      } else {
        Concat4(Collapse(s), w, Collapse(r), Join(Words(r), " "), Trail(r));
      }
    }
  }

  /** A string starting with a word collapses to that word followed by the collapse of the rest. */
  lemma WordStep(s: string)
    requires s != [] && !IsSpace(s[0])
    ensures Collapse(s) == s[..WordLength(s)] + Collapse(s[WordLength(s)..])
    ensures Words(s) == [s[..WordLength(s)]] + Words(s[WordLength(s)..])
    ensures Lead(s) == ""
  {
    var k := WordLength(s);
    assert s == s[..k] + s[k..];
    CollapseAfterWord(s[..k], s[k..]);
  }

  /** What follows the first word starts with whitespace and shares the last character of the whole string. */
  lemma RestAfterWord(s: string)
    requires s != [] && !IsSpace(s[0]) && WordLength(s) < |s|
    requires Words(s) == [s[..WordLength(s)]] + Words(s[WordLength(s)..])
    ensures var r := s[WordLength(s)..];
      && Lead(r) == " "
      && (Words(r) == [] ==> Trail(r) == "" && Join(Words(r), " ") == "" && Join(Words(s), " ") == s[..WordLength(s)] && Trail(s) == " ")
      && (Words(r) != [] ==> Trail(r) == Trail(s) && Join(Words(s), " ") == s[..WordLength(s)] + " " + Join(Words(r), " "))
  {
    var k := WordLength(s);
    var r := s[k..];
    assert r[|r| - 1] == s[|s| - 1];
    if Words(r) == [] {
      NoWordsAllSpace(r);
    } else {
      assert Words(s)[1..] == Words(r);
    }
  }

  lemma Concat3(c: string, w: string, cr: string, sp: string)
    requires c == w + cr && cr == sp + "" + ""
    ensures c == "" + w + sp
  {
  }

  lemma Concat4(c: string, w: string, cr: string, jr: string, tr: string)
    requires c == w + cr && cr == " " + jr + tr
    ensures c == "" + (w + " " + jr) + tr
  {
  }

  /** Words joined by single spaces form a normalised string. */
  lemma {:induction false} JoinWordsNormalized(ws: seq<string>)
    requires AllWords(ws)
    ensures Normalized(Join(ws, " "))
    ensures Stripped(Join(ws, " "))
  {
    if |ws| > 1 {
      JoinWordsNormalized(ws[1..]);
      var w := ws[0];
      var rest := Join(ws[1..], " ");
      var s := Join(ws, " ");
      assert s == w + " " + rest;
      JoinEnds(ws[1..], " ");
      assert rest[0] == ws[1][0];
      forall i | 0 <= i < |s|
        ensures IsSpace(s[i]) ==> s[i] == ' ' && 0 < i < |s| - 1 && !IsSpace(s[i + 1])
      {
        if i < |w| {
          assert s[i] == w[i];
        } else if i > |w| {
          assert s[i] == rest[i - |w| - 1];
          assert i + 1 < |s| ==> s[i + 1] == rest[i - |w|];
        } else {
          assert s[i + 1] == rest[0];
        }
      }
      JoinEnds(ws, " ");
      var last := ws[|ws| - 1];
      assert s[|s| - 1] == last[|last| - 1];
    } else if |ws| == 1 {
      assert Join(ws, " ") == ws[0];
    }
  }

  /** Reading the words back out of a single-space join returns the words. */
  lemma {:induction false} WordsOfJoin(ws: seq<string>)
    requires AllWords(ws)
    ensures Words(Join(ws, " ")) == ws
  {
    if |ws| == 1 {
      WordsAfterWord(ws[0], []);
      assert ws[0] + [] == ws[0];
    } else if |ws| > 1 {
      var rest := Join(ws[1..], " ");
      assert Join(ws, " ") == ws[0] + (" " + rest);
      WordsAfterWord(ws[0], " " + rest);
      assert (" " + rest)[1..] == rest;
      WordsOfJoin(ws[1..]);
    }
  }

  /** The normalisation is the words of the input joined by single spaces. */
  lemma {:induction false} NormalizeIsJoinedWords(s: string)
    ensures Normalize(s) == Join(Words(s), " ")
  {
    CollapseShape(s);
    var j := Join(Words(s), " ");
    JoinWordsNormalized(Words(s));
    StripByPadded(Lead(s), j, Trail(s), IsSpace);
  }

  /** The result of `re.sub(r"\s+", " ", s).strip()` has no whitespace at either end and no two whitespace characters in a row. */
  lemma {:induction false} NormalizeIsNormalized(s: string)
    ensures Normalized(Normalize(s))
    ensures Stripped(Normalize(s))
  {
    NormalizeIsJoinedWords(s);
    JoinWordsNormalized(Words(s));
  }

  /** Normalising twice is the same as normalising once. */
  lemma {:induction false} NormalizeIdempotent(s: string)
    ensures Normalize(Normalize(s)) == Normalize(s)
  {
    NormalizeIsJoinedWords(s);
    NormalizeIsJoinedWords(Normalize(s));
    WordsOfJoin(Words(s));
  }

  /** Normalisation keeps the words of its input and nothing else. */
  lemma {:induction false} NormalizeKeepsWords(s: string)
    ensures Words(Normalize(s)) == Words(s)
  {
    NormalizeIsJoinedWords(s);
    WordsOfJoin(Words(s));
  }

  /** Normalisation returns the empty string exactly when the input is all whitespace. */
  lemma {:induction false} NormalizeEmpty(s: string)
    ensures Normalize(s) == [] <==> AllSpace(s)
  {
    NormalizeIsJoinedWords(s);
    if AllSpace(s) {
      AllSpaceNoWords(s);
    }
    if Normalize(s) == [] {
      if Words(s) != [] {
        JoinEnds(Words(s), " ");
      }
      NoWordsAllSpace(s);
    }
  }

  /** The words of all the pieces, in order. */
  function FlatWords(parts: seq<string>): seq<string> {
    if parts == [] then [] else Words(parts[0]) + FlatWords(parts[1..])
  }

  /** Joining pieces with a whitespace separator puts their words one after the other. */
  lemma {:induction false} WordsOfJoinBySpace(parts: seq<string>, c: char)
    requires IsSpace(c)
    ensures Words(Join(parts, [c])) == FlatWords(parts)
  {
    if |parts| == 1 {
      assert FlatWords(parts) == Words(parts[0]) + FlatWords([]);
    } else if |parts| > 1 {
      WordsOfJoinBySpace(parts[1..], c);
      WordsConcat(parts[0], c, Join(parts[1..], [c]));
      assert Join(parts, [c]) == parts[0] + [c] + Join(parts[1..], [c]);
    }
  }

  // ---------------------------------------------------------------------------------------
  // replace

  /** Python's `s.replace(pat, rep)`: every non-overlapping occurrence, scanning left to right. */
  function ReplaceAll(s: string, pat: string, rep: string): string
    requires pat != []
    decreases |s|
  {
    if |s| < |pat| then s
    else if s[..|pat|] == pat then rep + ReplaceAll(s[|pat|..], pat, rep)
    else [s[0]] + ReplaceAll(s[1..], pat, rep)
  }

  /** A prefix in which no occurrence of `pat` starts is copied unchanged. */
  lemma {:induction false} ReplaceAllSkips(p: string, t: string, pat: string, rep: string)
    requires pat != []
    requires forall i :: 0 <= i < |p| ==> !StartsWith((p + t)[i..], pat)
    ensures ReplaceAll(p + t, pat, rep) == p + ReplaceAll(t, pat, rep)
    decreases |p|
  {
    if p != [] {
      var s := p + t;
      assert s != [] && s[0] == p[0];
      assert !StartsWith(s[0..], pat);
      assert s[0..] == s;
      assert s[1..] == p[1..] + t;
      forall i | 0 <= i < |p[1..]|
        ensures !StartsWith((p[1..] + t)[i..], pat)
      {
        assert (p[1..] + t)[i..] == s[i + 1..];
      }
      ReplaceAllSkips(p[1..], t, pat, rep);
      if |s| >= |pat| {
        assert ReplaceAll(s, pat, rep) == [s[0]] + ReplaceAll(s[1..], pat, rep);
      } else {
        assert ReplaceAll(s, pat, rep) == s;
        assert ReplaceAll(t, pat, rep) == t;
      }
    } else {
      assert p + t == t;
    }
  }

  /** A string with no occurrence of `pat` is left unchanged. */
  lemma {:induction false} ReplaceAllNone(s: string, pat: string, rep: string)
    requires pat != []
    requires !Contains(s, pat)
    ensures ReplaceAll(s, pat, rep) == s
  {
    forall i | 0 <= i < |s|
      ensures !StartsWith((s + [])[i..], pat)
    {
      assert (s + [])[i..] == s[i..];
      if StartsWith(s[i..], pat) {
        assert OccursAt(s, pat, i);
      }
    }
    ReplaceAllSkips(s, [], pat, rep);
    assert s + [] == s;
  }

  // ---------------------------------------------------------------------------------------
  // integers as decimal text

  function DigitChar(d: nat): char
    requires d < 10
  {
    ('0' as int + d) as char
  }

  function DigitValue(c: char): nat {
    if IsDigit(c) then c as int - '0' as int else 0
  }

  /** Python's `str(n)` for a non-negative integer. */
  function Decimal(n: nat): (r: string)
    ensures |r| >= 1
    ensures forall i :: 0 <= i < |r| ==> IsDigit(r[i])
  {
    if n < 10 then [DigitChar(n)] else Decimal(n / 10) + [DigitChar(n % 10)]
  }

  /** Python's `int(ds)` for a string of decimal digits. */
  function DigitsValue(ds: string): nat {
    if ds == [] then 0 else DigitsValue(ds[..|ds| - 1]) * 10 + DigitValue(ds[|ds| - 1])
  }

  /** `int(str(n)) == n`. */
  lemma {:induction false} DigitsValueOfDecimal(n: nat)
    ensures DigitsValue(Decimal(n)) == n
  {
    var r := Decimal(n);
    if n < 10 {
      assert r[..0] == [];
    } else {
      DigitsValueOfDecimal(n / 10);
      assert r[..|r| - 1] == Decimal(n / 10);
    }
  }
}
