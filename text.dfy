/**
 * The string operations the Python code takes from the standard library:
 * `str.strip`, `str.lower`, the `\s+` collapse of `_normalize_error`,
 * `str.split`, `"|".join`, substring tests and digit parsing.
 *
 * Whitespace is the set of code points `str.isspace` accepts; lower-casing
 * covers the ASCII letters only.
 */
module Text {

  /** The code points for which Python's `str.isspace()` is true; `str.strip()`
      and the `\s` class of `re` both use this set. */
  predicate IsSpace(c: char) {
    ('\t' <= c <= '\r') || ('\U{1C}' <= c <= '\U{1F}') || c == ' ' ||
    c == '\U{85}' || c == '\U{A0}' || c == '\U{1680}' ||
    ('\U{2000}' <= c <= '\U{200A}') || c == '\U{2028}' || c == '\U{2029}' ||
    c == '\U{202F}' || c == '\U{205F}' || c == '\U{3000}'
  }

  predicate IsUpper(c: char) {
    'A' <= c <= 'Z'
  }

  function LowerChar(c: char): (d: char)
    ensures !IsUpper(d)
    ensures IsSpace(d) <==> IsSpace(c)
    ensures !IsUpper(c) ==> d == c
  {
    if IsUpper(c) then (c as int + 32) as char else c
  }

  /** `s.lower()` */
  function Lower(s: string): (r: string)
    ensures |r| == |s|
    ensures forall i :: 0 <= i < |s| ==> r[i] == LowerChar(s[i])
  {
    seq(|s|, i requires 0 <= i < |s| => LowerChar(s[i]))
  }

  predicate AllSpace(s: string) {
    forall i :: 0 <= i < |s| ==> IsSpace(s[i])
  }

  /** `s.lstrip()`: drops the longest all-whitespace prefix. */
  function TrimStart(s: string): (r: string)
    ensures |r| <= |s| && r == s[|s| - |r|..]
    ensures r == [] || !IsSpace(r[0])
    ensures forall i :: 0 <= i < |s| - |r| ==> IsSpace(s[i])
  {
    if s != [] && IsSpace(s[0]) then TrimStart(s[1..]) else s
  }

  lemma TrimStartNoLead(s: string)
    requires s != [] && !IsSpace(s[0])
    ensures TrimStart(s) == s
  {
  }

  /** `s.rstrip()`: drops the longest all-whitespace suffix. */
  function TrimEnd(s: string): (r: string)
    ensures |r| <= |s| && r == s[..|r|]
    ensures r == [] || !IsSpace(r[|r| - 1])
    ensures forall i :: |r| <= i < |s| ==> IsSpace(s[i])
  {
    if s != [] && IsSpace(s[|s| - 1]) then TrimEnd(s[..|s| - 1]) else s
  }

  /** `s.strip()` */
  function Strip(s: string): string {
    TrimEnd(TrimStart(s))
  }

  /** `re.sub(r"\s+", " ", s)`: every maximal run of whitespace becomes one space. */
  function Collapse(s: string): string
    decreases |s|
  {
    if s == [] then []
    else if IsSpace(s[0]) then
      var rest := TrimStart(s);
      assert |rest| < |s|;
      [' '] + Collapse(rest)
    else [s[0]] + Collapse(s[1..])
  }

  /** `_normalize_error`: trim, lower-case, collapse whitespace runs. */
  function Normalize(s: string): string {
    Collapse(Lower(Strip(s)))
  }

  /** The shape every normalised text has. */
  predicate NormalForm(n: string) {
    && NoUpper(n)
    && BlanksOnly(n)
    && (forall i :: 0 <= i < |n| - 1 ==> !(IsSpace(n[i]) && IsSpace(n[i + 1])))
    && (n != [] ==> !IsSpace(n[0]) && !IsSpace(n[|n| - 1]))
  }

  // ---------------------------------------------------------------- Collapse

  lemma {:induction false} CollapseEmpty(s: string)
    ensures Collapse(s) == [] <==> s == []
  {
  }

  lemma {:induction false} TrimStartAllSpacePrefix(w: string, b: string)
    requires AllSpace(w)
    ensures TrimStart(w + b) == TrimStart(b)
    decreases |w|
  {
    if w != [] {
      assert (w + b)[0] == w[0];
      assert (w + b)[1..] == w[1..] + b;
      assert AllSpace(w[1..]);
      TrimStartAllSpacePrefix(w[1..], b);
    } else {
      assert w + b == b;
    }
  }

  lemma {:induction false} TrimStartSplit(a: string, b: string)
    requires !AllSpace(a)
    ensures TrimStart(a + b) == TrimStart(a) + b
    decreases |a|
  {
    if IsSpace(a[0]) {
      assert (a + b)[1..] == a[1..] + b;
      assert !AllSpace(a[1..]) by {
        var i :| 0 <= i < |a| && !IsSpace(a[i]);
        assert i > 0 && a[1..][i - 1] == a[i];
      }
      TrimStartSplit(a[1..], b);
    }
  }

  lemma CollapseSpaceHead(s: string)
    requires s != [] && IsSpace(s[0])
    ensures Collapse(s) == [' '] + Collapse(TrimStart(s))
  {
  }

  lemma CollapseCharHead(s: string)
    requires s != [] && !IsSpace(s[0])
    ensures Collapse(s) == [s[0]] + Collapse(s[1..])
  {
  }

  predicate NoUpper(s: string) {
    forall i :: 0 <= i < |s| ==> !IsUpper(s[i])
  }

  /** Its only whitespace is ' '. */
  predicate BlanksOnly(s: string) {
    forall i :: 0 <= i < |s| && IsSpace(s[i]) ==> s[i] == ' '
  }

  lemma ConsShape(c: char, t: string)
    ensures NoUpper([c] + t) <==> !IsUpper(c) && NoUpper(t)
    ensures BlanksOnly([c] + t) <==> (IsSpace(c) ==> c == ' ') && BlanksOnly(t)
  {
    var r := [c] + t;
    assert r[0] == c;
    assert forall i :: 0 <= i < |t| ==> r[i + 1] == t[i];
  }

  lemma NoUpperSuffix(s: string, k: int)
    requires NoUpper(s) && 0 <= k <= |s|
    ensures NoUpper(s[k..])
  {
    forall i | 0 <= i < |s| - k ensures !IsUpper(s[k..][i]) {
      assert s[k..][i] == s[k + i];
    }
  }

  /** The only whitespace Collapse emits is ' '. */
  lemma {:induction false} CollapseBlanks(s: string)
    ensures BlanksOnly(Collapse(s))
    decreases |s|
  {
    if s == [] {
    } else if IsSpace(s[0]) {
      var rest := TrimStart(s);
      CollapseBlanks(rest);
      CollapseSpaceHead(s);
      ConsShape(' ', Collapse(rest));
    } else {
      CollapseBlanks(s[1..]);
      CollapseCharHead(s);
      ConsShape(s[0], Collapse(s[1..]));
    }
  }

  /** Collapse emits no upper-case letter when its input has none. */
  lemma {:induction false} CollapseNoUpper(s: string)
    requires NoUpper(s)
    ensures NoUpper(Collapse(s))
    decreases |s|
  {
    if s == [] {
    } else if IsSpace(s[0]) {
      var rest := TrimStart(s);
      NoUpperSuffix(s, |s| - |rest|);
      CollapseNoUpper(rest);
      CollapseSpaceHead(s);
      ConsShape(' ', Collapse(rest));
    } else {
      NoUpperSuffix(s, 1);
      CollapseNoUpper(s[1..]);
      CollapseCharHead(s);
      ConsShape(s[0], Collapse(s[1..]));
    }
  }

  /** The first character of a text that does not start with whitespace survives Collapse. */
  lemma CollapseFirst(s: string)
    requires s != [] && !IsSpace(s[0])
    ensures Collapse(s) != [] && Collapse(s)[0] == s[0]
  {
  }

  /** Collapse never emits two whitespace characters in a row. */
  lemma {:induction false} CollapseNoDoubleSpace(s: string)
    ensures forall i :: 0 <= i < |Collapse(s)| - 1 ==> !(IsSpace(Collapse(s)[i]) && IsSpace(Collapse(s)[i + 1]))
    decreases |s|
  {
    if s == [] {
    } else if IsSpace(s[0]) {
      var rest := TrimStart(s);
      CollapseNoDoubleSpace(rest);
      if rest != [] {
        CollapseFirst(rest);
      }
    } else {
      CollapseNoDoubleSpace(s[1..]);
    }
  }

  /** A text that does not end in whitespace does not end in whitespace after Collapse. */
  lemma {:induction false} CollapseLast(s: string)
    requires s != [] && !IsSpace(s[|s| - 1])
    ensures Collapse(s) != [] && !IsSpace(Collapse(s)[|Collapse(s)| - 1])
    decreases |s|
  {
    if IsSpace(s[0]) {
      var rest := TrimStart(s);
      assert s[..|s|][|s| - 1] == s[|s| - 1];
      assert rest != [];
      assert rest[|rest| - 1] == s[|s| - 1];
      CollapseLast(rest);
    } else if |s| > 1 {
      assert s[1..][|s[1..]| - 1] == s[|s| - 1];
      CollapseLast(s[1..]);
    }
  }

  /** Collapse leaves a text alone when its whitespace already is single ' 's. */
  lemma {:induction false} CollapseFixed(n: string)
    requires BlanksOnly(n)
    requires forall i :: 0 <= i < |n| - 1 ==> !(IsSpace(n[i]) && IsSpace(n[i + 1]))
    ensures Collapse(n) == n
    decreases |n|
  {
    if n != [] {
      CollapseFixed(n[1..]);
      if IsSpace(n[0]) {
        assert TrimStart(n) == TrimStart(n[1..]) == n[1..];
      }
    }
  }

  /** A text opening with a whitespace run collapses to one space and the rest. */
  lemma CollapseLeadingRun(w: string, b: string)
    requires w != [] && AllSpace(w)
    ensures Collapse(w + b) == [' '] + Collapse(TrimStart(b))
  {
    assert (w + b)[0] == w[0];
    CollapseSpaceHead(w + b);
    TrimStartAllSpacePrefix(w, b);
  }

  /** A whitespace run of any length and any kind collapses to the same single space. */
  lemma {:induction false} CollapseRunIrrelevant(a: string, w1: string, w2: string, b: string)
    requires w1 != [] && AllSpace(w1) && w2 != [] && AllSpace(w2)
    ensures Collapse(a + w1 + b) == Collapse(a + w2 + b)
    decreases |a|
  {
    if a == [] {
      assert a + w1 + b == w1 + b && a + w2 + b == w2 + b;
      CollapseLeadingRun(w1, b);
      CollapseLeadingRun(w2, b);
    } else if AllSpace(a) {
      assert AllSpace(a + w1) && AllSpace(a + w2);
      assert a + w1 + b == (a + w1) + b && a + w2 + b == (a + w2) + b;
      CollapseLeadingRun(a + w1, b);
      CollapseLeadingRun(a + w2, b);
    } else if IsSpace(a[0]) {
      CollapseRunAfterSpace(a, w1, w2, b);
    } else {
      CollapseRunAfterChar(a, w1, w2, b);
    }
  }

  lemma {:induction false} CollapseRunAfterSpace(a: string, w1: string, w2: string, b: string)
    requires w1 != [] && AllSpace(w1) && w2 != [] && AllSpace(w2)
    requires a != [] && IsSpace(a[0]) && !AllSpace(a)
    ensures Collapse(a + w1 + b) == Collapse(a + w2 + b)
    decreases |a|, 0
  {
    var s1, s2 := a + (w1 + b), a + (w2 + b);
    ConcatAssoc(a, w1, b);
    ConcatAssoc(a, w2, b);
    assert s1[0] == a[0] && s2[0] == a[0];
    CollapseSpaceHead(s1);
    CollapseSpaceHead(s2);
    TrimStartSplit(a, w1 + b);
    TrimStartSplit(a, w2 + b);
    var a' := TrimStart(a);
    assert |a'| < |a|;
    ConcatAssoc(a', w1, b);
    ConcatAssoc(a', w2, b);
    CollapseRunIrrelevant(a', w1, w2, b);
  }

  lemma ConcatAssoc(x: string, y: string, z: string)
    ensures x + (y + z) == x + y + z
  {
  }

  lemma CollapseCons(c: char, t: string)
    requires !IsSpace(c)
    ensures Collapse([c] + t) == [c] + Collapse(t)
  {
    assert ([c] + t)[0] == c && ([c] + t)[1..] == t;
  }

  lemma {:induction false} CollapseRunAfterChar(a: string, w1: string, w2: string, b: string)
    requires w1 != [] && AllSpace(w1) && w2 != [] && AllSpace(w2)
    requires a != [] && !IsSpace(a[0])
    ensures Collapse(a + w1 + b) == Collapse(a + w2 + b)
    decreases |a|, 0
  {
    var c, a1 := a[0], a[1..];
    var t1, t2 := a1 + w1 + b, a1 + w2 + b;
    assert a + w1 + b == [c] + t1 by { assert a == [c] + a1; }
    assert a + w2 + b == [c] + t2 by { assert a == [c] + a1; }
    CollapseCons(c, t1);
    CollapseCons(c, t2);
    CollapseRunIrrelevant(a1, w1, w2, b);
  }

  // ---------------------------------------------------------------- Lower and Strip

  lemma LowerNoUpper(s: string)
    requires NoUpper(s)
    ensures Lower(s) == s
  {
  }

  lemma LowerIdempotent(s: string)
    ensures Lower(Lower(s)) == Lower(s)
  {
  }

  lemma LowerConcat(x: string, y: string)
    ensures Lower(x + y) == Lower(x) + Lower(y)
  {
  }

  lemma {:induction false} TrimStartLower(s: string)
    ensures TrimStart(Lower(s)) == Lower(TrimStart(s))
    decreases |s|
  {
    if s != [] && IsSpace(s[0]) {
      assert Lower(s)[1..] == Lower(s[1..]);
      TrimStartLower(s[1..]);
    }
  }

  lemma {:induction false} TrimEndLower(s: string)
    ensures TrimEnd(Lower(s)) == Lower(TrimEnd(s))
    decreases |s|
  {
    if s != [] && IsSpace(s[|s| - 1]) {
      assert Lower(s)[..|s| - 1] == Lower(s[..|s| - 1]);
      TrimEndLower(s[..|s| - 1]);
    }
  }

  lemma {:induction false} TrimEndAllSpaceSuffix(b: string, w: string)
    requires AllSpace(w)
    ensures TrimEnd(b + w) == TrimEnd(b)
    decreases |w|
  {
    if w != [] {
      var bw := b + w;
      assert bw[|bw| - 1] == w[|w| - 1];
      assert bw[..|bw| - 1] == b + w[..|w| - 1];
      TrimEndAllSpaceSuffix(b, w[..|w| - 1]);
    } else {
      assert b + w == b;
    }
  }

  lemma TrimStartAllSpace(w: string)
    requires AllSpace(w)
    ensures TrimStart(w) == []
  {
    assert w + [] == w;
    TrimStartAllSpacePrefix(w, []);
  }

  lemma StripNoPadding(n: string)
    requires n == [] || (!IsSpace(n[0]) && !IsSpace(n[|n| - 1]))
    ensures Strip(n) == n
  {
  }

  lemma StripShape(s: string)
    ensures var st := Strip(s); st == [] || (!IsSpace(st[0]) && !IsSpace(st[|st| - 1]))
  {
    var ts := TrimStart(s);
    var st := TrimEnd(ts);
    if st != [] {
      assert st[0] == ts[0];
    }
  }

  // ---------------------------------------------------------------- Normalize

  /** Every normalised text is in normal form. */
  lemma NormalizeForm(s: string)
    ensures NormalForm(Normalize(s))
  {
    var st := Strip(s);
    StripShape(s);
    var t := Lower(st);
    CollapseNoUpper(t);
    CollapseBlanks(t);
    CollapseNoDoubleSpace(t);
    if t != [] {
      CollapseFirst(t);
      CollapseLast(t);
    }
  }

  /** Normalising twice is normalising once. */
  lemma NormalizeIdempotent(s: string)
    ensures Normalize(Normalize(s)) == Normalize(s)
  {
    var n := Normalize(s);
    NormalizeForm(s);
    assert Strip(n) == n by {
      StripNoPadding(n);
    }
    assert Lower(n) == n by {
      LowerNoUpper(n);
    }
    CollapseFixed(n);
  }

  /** Texts that differ only in letter case normalise to the same text. */
  lemma NormalizeIgnoresCase(a: string, b: string)
    requires Lower(a) == Lower(b)
    ensures Normalize(a) == Normalize(b)
  {
    TrimStartLower(a);
    TrimEndLower(TrimStart(a));
    TrimStartLower(b);
    TrimEndLower(TrimStart(b));
    LowerIdempotent(Strip(a));
    LowerIdempotent(Strip(b));
    assert Lower(Strip(a)) == Strip(Lower(a));
    assert Lower(Strip(b)) == Strip(Lower(b));
  }

  /** Leading and trailing whitespace do not change the normalised text. */
  lemma NormalizeIgnoresPadding(w1: string, s: string, w2: string)
    requires AllSpace(w1) && AllSpace(w2)
    ensures Normalize(w1 + s + w2) == Normalize(s)
  {
    assert w1 + s + w2 == w1 + (s + w2);
    TrimStartAllSpacePrefix(w1, s + w2);
    if AllSpace(s) {
      assert AllSpace(s + w2);
      TrimStartAllSpace(s);
      TrimStartAllSpace(s + w2);
    } else {
      TrimStartSplit(s, w2);
      TrimEndAllSpaceSuffix(TrimStart(s), w2);
    }
  }

  /** Inside a text, a whitespace run of any length and kind normalises to one space. */
  lemma NormalizeIgnoresSpacing(a: string, w1: string, w2: string, b: string)
    requires w1 != [] && AllSpace(w1) && w2 != [] && AllSpace(w2)
    requires a != [] && !IsSpace(a[0]) && b != [] && !IsSpace(b[|b| - 1])
    ensures Normalize(a + w1 + b) == Normalize(a + w2 + b)
  {
    var s1, s2 := a + w1 + b, a + w2 + b;
    assert s1[0] == a[0] && s1[|s1| - 1] == b[|b| - 1];
    assert s2[0] == a[0] && s2[|s2| - 1] == b[|b| - 1];
    StripNoPadding(s1);
    StripNoPadding(s2);
    LowerConcat(a + w1, b);
    LowerConcat(a, w1);
    LowerConcat(a + w2, b);
    LowerConcat(a, w2);
    CollapseRunIrrelevant(Lower(a), Lower(w1), Lower(w2), Lower(b));
  }

  // ---------------------------------------------------------------- split, join, substrings, digits

  /** `s.split(sep)` for a one-character separator. */
  function Split(s: string, sep: char): (parts: seq<string>)
    ensures |parts| >= 1
    decreases |s|
  {
    if s == [] then [""]
    else if s[0] == sep then [""] + Split(s[1..], sep)
    else
      var t := Split(s[1..], sep);
      [[s[0]] + t[0]] + t[1..]
  }

  /** No part holds the separator. */
  lemma {:induction false} SplitPartsLackSep(s: string, sep: char)
    ensures forall i :: 0 <= i < |Split(s, sep)| ==> sep !in Split(s, sep)[i]
    decreases |s|
  {
    if s != [] {
      SplitPartsLackSep(s[1..], sep);
      var t := Split(s[1..], sep);
      if s[0] != sep {
        var r := Split(s, sep);
        assert r[0] == [s[0]] + t[0];
        forall i | 1 <= i < |r| ensures sep !in r[i] {
          assert r[i] == t[i];
        }
      }
    }
  }

  /** Splitting text joined by a separator splits both sides. */
  lemma {:induction false} SplitAppend(s: string, t: string, sep: char)
    ensures Split(s + [sep] + t, sep) == Split(s, sep) + Split(t, sep)
    decreases |s|
  {
    var u := s + [sep] + t;
    if s == [] {
      assert u[0] == sep && u[1..] == t;
      assert Split(u, sep) == [""] + Split(t, sep);
    } else {
      SplitAppend(s[1..], t, sep);
      SplitAppendStep(s, t, sep);
    }
  }

  /** The inductive step of `SplitAppend`: one more character in front. */
  lemma SplitAppendStep(s: string, t: string, sep: char)
    requires s != []
    requires Split(s[1..] + [sep] + t, sep) == Split(s[1..], sep) + Split(t, sep)
    ensures Split(s + [sep] + t, sep) == Split(s, sep) + Split(t, sep)
  {
    var u := s + [sep] + t;
    assert u[0] == s[0] && u[1..] == s[1..] + [sep] + t;
    var r, q := Split(s[1..], sep), Split(t, sep);
    if s[0] == sep {
      assert Split(u, sep) == [""] + (r + q);
      PartsAssoc([""], r, q);
    } else {
      HeadJoin(s[0], r, q);
    }
  }

  lemma HeadJoin(c: char, r: seq<string>, q: seq<string>)
    requires r != []
    ensures [[c] + (r + q)[0]] + (r + q)[1..] == ([[c] + r[0]] + r[1..]) + q
  {
    assert (r + q)[0] == r[0] && (r + q)[1..] == r[1..] + q;
    PartsAssoc([[c] + r[0]], r[1..], q);
  }

  lemma PartsAssoc(x: seq<string>, y: seq<string>, z: seq<string>)
    ensures x + (y + z) == x + y + z
  {
  }

  /** Text without the separator is one part. */
  lemma {:induction false} SplitNoSep(s: string, sep: char)
    requires sep !in s
    ensures Split(s, sep) == [s]
    decreases |s|
  {
    if s != [] {
      SplitNoSep(s[1..], sep);
      assert [s[0]] + s[1..] == s;
    }
  }

  /** `sep.join(parts)` */
  function Join(parts: seq<string>, sep: string): string {
    if parts == [] then ""
    else if |parts| == 1 then parts[0]
    else parts[0] + sep + Join(parts[1..], sep)
  }

  /** Splitting and joining back with the same separator gives the text back. */
  lemma {:induction false} JoinSplit(s: string, sep: char)
    ensures Join(Split(s, sep), [sep]) == s
    decreases |s|
  {
    if s != [] {
      JoinSplit(s[1..], sep);
      var t := Split(s[1..], sep);
      if s[0] != sep {
        if |t| > 1 {
          assert ([[s[0]] + t[0]] + t[1..])[1..] == t[1..];
          assert Join(t, [sep]) == t[0] + [sep] + Join(t[1..], [sep]);
        }
      } else {
        assert ([""] + t)[1..] == t;
      }
    }
  }

  /** `s.replace(pat, "")`: every non-overlapping occurrence, scanning left to right, is removed. */
  function RemoveAll(s: string, pat: string): (r: string)
    requires pat != []
    ensures |r| <= |s|
    ensures !IsSubstring(pat, s) ==> r == s
    decreases |s|
  {
    if s == [] then []
    else if |pat| <= |s| && s[..|pat|] == pat then
      assert OccursAt(pat, s, 0);
      RemoveAll(s[|pat|..], pat)
    else
      var r := [s[0]] + RemoveAll(s[1..], pat);
      assert !IsSubstring(pat, s) ==> !IsSubstring(pat, s[1..]) by {
        if IsSubstring(pat, s[1..]) {
          var i :| 0 <= i <= |s[1..]| - |pat| && OccursAt(pat, s[1..], i);
          assert s[i + 1..i + 1 + |pat|] == s[1..][i..i + |pat|];
          assert OccursAt(pat, s, i + 1);
        }
      }
      r
  }

  /** Python's `needle in haystack` on strings. */
  predicate IsSubstring(needle: string, haystack: string) {
    exists i :: 0 <= i <= |haystack| - |needle| && OccursAt(needle, haystack, i)
  }

  predicate OccursAt(needle: string, haystack: string, i: int) {
    0 <= i && i + |needle| <= |haystack| && haystack[i..i + |needle|] == needle
  }

  predicate IsDigit(c: char) {
    '0' <= c <= '9'
  }

  /** `x.isdigit()` for ASCII digits: non-empty and digits only. */
  predicate IsDigits(x: string) {
    x != [] && forall i :: 0 <= i < |x| ==> IsDigit(x[i])
  }

  /** `int(x)` for a string of ASCII digits. */
  function ParseNat(x: string): nat
    requires forall i :: 0 <= i < |x| ==> IsDigit(x[i])
    decreases |x|
  {
    if x == [] then 0
    else
      var d := x[|x| - 1];
      assert IsDigit(d);
      10 * ParseNat(x[..|x| - 1]) + (d as int - '0' as int)
  }

  /** Decimal digits of a natural number, as `str(n)` prints them. */
  function NatToString(n: nat): (r: string)
    ensures r != [] && forall i :: 0 <= i < |r| ==> IsDigit(r[i])
    decreases n
  {
    var d := ['0' + (n % 10) as char];
    if n < 10 then d else NatToString(n / 10) + d
  }

  /** Reading back what NatToString prints gives the number back. */
  lemma {:induction false} ParseNatToString(n: nat)
    ensures ParseNat(NatToString(n)) == n
    decreases n
  {
    if n >= 10 {
      ParseNatToString(n / 10);
      var r := NatToString(n);
      assert r[..|r| - 1] == NatToString(n / 10);
    }
  }
}
