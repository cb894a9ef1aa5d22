// Python string operations that the patch scripts and the injected code rely on,
// stated over Dafny strings (seq<char>).
module Text {

  /** Python's str.isspace(); the regex class \s matches exactly these characters in a str pattern. */
  predicate IsSpace(c: char) {
    c == ' ' || ('\t' <= c <= '\r') || ('\U{1C}' <= c <= '\U{1F}') || c == '\U{85}' || c == '\U{A0}'
    || c == '\U{1680}' || ('\U{2000}' <= c <= '\U{200A}') || c == '\U{2028}' || c == '\U{2029}'
    || c == '\U{202F}' || c == '\U{205F}' || c == '\U{3000}'
  }

  predicate NotSpace(c: char) { !IsSpace(c) }

  /** The regex class \d, restricted to ASCII digits. */
  predicate IsDigit(c: char) { '0' <= c <= '9' }

  predicate IsAsciiLetter(c: char) { 'A' <= c <= 'Z' || 'a' <= c <= 'z' }

  /** The regex class \w, restricted to ASCII. */
  predicate IsWordChar(c: char) { IsAsciiLetter(c) || IsDigit(c) || c == '_' }

  /** `^[A-Za-z_]\w*$` on text that has already been stripped. */
  predicate IsIdentifier(s: string) {
    |s| > 0 && (IsAsciiLetter(s[0]) || s[0] == '_') && forall i :: 0 <= i < |s| ==> IsWordChar(s[i])
  }

  predicate StartsWith(s: string, prefix: string) { prefix <= s }

  predicate EndsWith(s: string, suffix: string) {
    |suffix| <= |s| && s[|s| - |suffix|..] == suffix
  }

  /** Python's `needle in s`. */
  predicate Contains(s: string, needle: string)
    decreases |s|
  {
    StartsWith(s, needle) || (|s| > 0 && Contains(s[1..], needle))
  }

  lemma {:induction false} ContainsAt(s: string, needle: string, i: nat)
    requires i + |needle| <= |s| && s[i..i + |needle|] == needle
    ensures Contains(s, needle)
    decreases i
  {
    if i > 0 {
      assert s[1..][i - 1..i - 1 + |needle|] == needle;
      ContainsAt(s[1..], needle, i - 1);
    } else {
      assert s[..|needle|] == needle;
    }
  }

  lemma {:induction false} ContainsWitness(s: string, needle: string) returns (i: nat)
    requires Contains(s, needle)
    ensures i + |needle| <= |s| && s[i..i + |needle|] == needle
    decreases |s|
  {
    if StartsWith(s, needle) {
      i := 0;
    } else {
      var j := ContainsWitness(s[1..], needle);
      i := j + 1;
      assert s[i..i + |needle|] == s[1..][j..j + |needle|];
    }
  }

  lemma ContainsInLeft(a: string, b: string, needle: string)
    requires Contains(a, needle)
    ensures Contains(a + b, needle)
  {
    var i := ContainsWitness(a, needle);
    assert (a + b)[i..i + |needle|] == a[i..i + |needle|];
    ContainsAt(a + b, needle, i);
  }

  lemma ContainsInRight(a: string, b: string, needle: string)
    requires Contains(b, needle)
    ensures Contains(a + b, needle)
  {
    var i := ContainsWitness(b, needle);
    assert (a + b)[|a| + i..|a| + i + |needle|] == b[i..i + |needle|];
    ContainsAt(a + b, needle, |a| + i);
  }

  /** A text that contains `big` contains every part of `big`. */
  lemma ContainsPart(s: string, big: string, needle: string)
    requires Contains(s, big) && Contains(big, needle)
    ensures Contains(s, needle)
  {
    var i := ContainsWitness(s, big);
    var j := ContainsWitness(big, needle);
    forall x | 0 <= x < |needle| ensures s[i + j + x] == needle[x] {
      assert s[i + (j + x)] == s[i..i + |big|][j + x];
      assert big[j + x] == big[j..j + |needle|][x];
    }
    assert s[i + j..i + j + |needle|] == needle;
    ContainsAt(s, needle, i + j);
  }

  /** Number of leading characters of `s` that satisfy `p`. */
  function PrefixLen(s: string, p: char -> bool): (n: nat)
    ensures n <= |s|
    ensures forall i :: 0 <= i < n ==> p(s[i])
    ensures n < |s| ==> !p(s[n])
    decreases |s|
  {
    if |s| > 0 && p(s[0]) then 1 + PrefixLen(s[1..], p) else 0
  }

  /** A run that stops inside `a` stops at the same place when more text follows. */
  lemma PrefixLenAppend(a: string, b: string, p: char -> bool)
    requires PrefixLen(a, p) < |a|
    ensures PrefixLen(a + b, p) == PrefixLen(a, p)
  {
    var n := PrefixLen(a, p);
    var m := PrefixLen(a + b, p);
    assert (a + b)[n] == a[n];
    assert m <= n;
    assert forall i :: 0 <= i < m ==> (a + b)[i] == a[i];
  }

  /** A text that lacks one of the needle's characters does not contain the needle. */
  lemma MissingCharNoText(s: string, needle: string, c: char)
    requires c in needle && c !in s
    ensures !Contains(s, needle)
  {
    if Contains(s, needle) {
      var i := ContainsWitness(s, needle);
    }
  }

  /** Number of trailing characters of `s` that satisfy `p`. */
  function SuffixLen(s: string, p: char -> bool): (n: nat)
    ensures n <= |s|
    ensures forall i :: |s| - n <= i < |s| ==> p(s[i])
    ensures n < |s| ==> !p(s[|s| - 1 - n])
    decreases |s|
  {
    if |s| > 0 && p(s[|s| - 1]) then 1 + SuffixLen(s[..|s| - 1], p) else 0
  }

  /** `len(l) - len(l.lstrip())`: the width of the leading whitespace. */
  function IndentLen(s: string): nat {
    PrefixLen(s, IsSpace)
  }

  /** `re.match(r"^(\s*)", l).group(1)`: the leading whitespace itself. */
  function Indent(s: string): (r: string)
    ensures r <= s && |r| == IndentLen(s)
  {
    s[..IndentLen(s)]
  }

  /** `s.lstrip()` */
  function LStrip(s: string): (r: string)
    ensures s == Indent(s) + r
    ensures r == [] || !IsSpace(r[0])
  {
    s[IndentLen(s)..]
  }

  /** Text after a line that holds a non-space character survives `lstrip` untouched. */
  lemma LStripAppend(a: string, b: string)
    requires LStrip(a) != []
    ensures LStrip(a + b) == LStrip(a) + b
  {
    PrefixLenAppend(a, b, IsSpace);
    assert (a + b)[IndentLen(a)..] == a[IndentLen(a)..] + b;
  }

  /** `s.rstrip(chars)` for the character set `p`. */
  function RStripWhile(s: string, p: char -> bool): (r: string)
    ensures r <= s
    ensures r == [] || !p(r[|r| - 1])
    ensures forall i :: |r| <= i < |s| ==> p(s[i])
  {
    s[..|s| - SuffixLen(s, p)]
  }

  /** `s.rstrip()` */
  function RStrip(s: string): string {
    RStripWhile(s, IsSpace)
  }

  /** `s.strip()` */
  function Strip(s: string): string {
    RStrip(LStrip(s))
  }

  /** A stripped text strips to itself on either side. */
  lemma StripIsStripped(s: string)
    ensures LStrip(Strip(s)) == Strip(s) && RStrip(Strip(s)) == Strip(s)
  {
    var t := LStrip(s);
    var r := Strip(s);
    assert r <= t;
    if r != [] {
      assert r[0] == t[0];
      assert PrefixLen(r, IsSpace) == 0;
      assert SuffixLen(r, IsSpace) == 0;
    }
    assert r[IndentLen(r)..] == r;
    assert r[..|r| - SuffixLen(r, IsSpace)] == r;
  }

  /** Stripping only removes characters. */
  lemma StripKeepsChars(s: string, c: char)
    requires c in Strip(s)
    ensures c in s
  {
    var j :| 0 <= j < |Strip(s)| && Strip(s)[j] == c;
    assert s[IndentLen(s) + j] == LStrip(s)[j];
  }

  /** A line with no surrounding whitespace apart from its newline strips to its text. */
  lemma StripLine(t: string)
    requires t != [] && !IsSpace(t[0]) && !IsSpace(t[|t| - 1])
    ensures Strip(t + "\n") == t
  {
    var s := t + "\n";
    assert IndentLen(s) == 0;
    assert LStrip(s) == s;
    assert s[..|s| - 1] == t;
    assert SuffixLen(t, IsSpace) == 0;
    assert SuffixLen(s, IsSpace) == 1;
  }

  /** `l.strip() == ""` */
  predicate IsBlank(s: string) {
    Strip(s) == ""
  }

  lemma BlankIffAllSpace(s: string)
    ensures IsBlank(s) <==> forall i :: 0 <= i < |s| ==> IsSpace(s[i])
  {
    var t := LStrip(s);
    if IsBlank(s) {
      assert SuffixLen(t, IsSpace) == |t|;
      assert t == [];
    }
  }

  /** Number of occurrences of the character `c` in `s` (`s.count(c)`). */
  function CountChar(s: string, c: char): nat
    decreases |s|
  {
    if s == [] then 0 else (if s[0] == c then 1 else 0) + CountChar(s[1..], c)
  }

  lemma {:induction false} CountCharAppend(a: string, b: string, c: char)
    ensures CountChar(a + b, c) == CountChar(a, c) + CountChar(b, c)
    decreases |a|
  {
    if a != [] {
      assert (a + b)[1..] == a[1..] + b;
      CountCharAppend(a[1..], b, c);
    } else {
      assert a + b == b;
    }
  }

  /** `"".join(xs)` */
  function Join(xs: seq<string>): string
    decreases |xs|
  {
    if xs == [] then "" else xs[0] + Join(xs[1..])
  }

  lemma {:induction false} JoinAppend(xs: seq<string>, ys: seq<string>)
    ensures Join(xs + ys) == Join(xs) + Join(ys)
    decreases |xs|
  {
    if xs == [] {
      assert xs + ys == ys;
    } else {
      assert (xs + ys)[1..] == xs[1..] + ys;
      JoinAppend(xs[1..], ys);
    }
  }

  /** Cutting the lines anywhere cuts the joined text at the same place. */
  lemma JoinSplit(xs: seq<string>, i: nat)
    requires i <= |xs|
    ensures Join(xs[..i]) + Join(xs[i..]) == Join(xs)
  {
    var a, b := xs[..i], xs[i..];
    JoinAppend(a, b);
    assert a + b == xs;
  }

  /** A line's text is in the joined file. */
  lemma JoinHasLine(xs: seq<string>, k: nat, needle: string)
    requires k < |xs| && Contains(xs[k], needle)
    ensures Contains(Join(xs), needle)
  {
    assert xs == xs[..k] + xs[k..];
    JoinAppend(xs[..k], xs[k..]);
    assert Join(xs[k..]) == xs[k] + Join(xs[k + 1..]) by {
      assert xs[k..][1..] == xs[k + 1..];
    }
    ContainsInLeft(xs[k], Join(xs[k + 1..]), needle);
    ContainsInRight(Join(xs[..k]), Join(xs[k..]), needle);
  }

  /** `sep.join(xs)` */
  function JoinWith(xs: seq<string>, sep: string): string
    decreases |xs|
  {
    if xs == [] then "" else if |xs| == 1 then xs[0] else xs[0] + sep + JoinWith(xs[1..], sep)
  }

  /** `s.split(c)` for a one-character separator: the pieces between the separators, empty ones included. */
  function SplitChar(s: string, c: char): (r: seq<string>)
    ensures |r| >= 1
    ensures forall i :: 0 <= i < |r| ==> c !in r[i]
    ensures JoinWith(r, [c]) == s
    decreases |s|
  {
    if s == [] then [""]
    else if s[0] == c then
      var rest := SplitChar(s[1..], c);
      assert JoinWith([""] + rest, [c]) == [c] + JoinWith(rest, [c]);
      [""] + rest
    else
      var rest := SplitChar(s[1..], c);
      var r := [[s[0]] + rest[0]] + rest[1..];
      assert r[1..] == rest[1..];
      r
  }

  /** `s.split(c)[0]`, which is also `s.split(c, 1)[0]`: the text before the first `c`. */
  function BeforeFirst(s: string, c: char): (r: string)
    ensures r <= s && c !in r
    ensures |r| < |s| ==> s[|r|] == c
    ensures |r| == |s| <==> c !in s
  {
    var k := PrefixLen(s, x => x != c);
    assert c in s ==> k < |s| by {
      if c in s {
        var j :| 0 <= j < |s| && s[j] == c;
        assert !(j < k);
      }
    }
    s[..k]
  }

  /** The text before the first `c` of `a + b`: that of `a` when `a` holds a `c`, otherwise all
      of `a` followed by the text before the first `c` of `b`. */
  lemma BeforeFirstAppend(a: string, b: string, c: char)
    ensures c in a ==> BeforeFirst(a + b, c) == BeforeFirst(a, c)
    ensures c !in a ==> BeforeFirst(a + b, c) == a + BeforeFirst(b, c)
  {
    var r := BeforeFirst(a + b, c);
    if c in a {
      var r1 := BeforeFirst(a, c);
      assert |r| <= |r1| by {
        assert c !in r && (a + b)[|r1|] == c;
      }
      assert |r1| <= |r| by {
        assert c !in r1 && |r| < |a + b| && (a + b)[|r|] == a[|r|];
      }
      assert r == (a + b)[..|r|] == a[..|r1|] == r1;
    } else {
      var r2 := BeforeFirst(b, c);
      assert |r| >= |a| by {
        assert forall k :: 0 <= k < |a| ==> (a + b)[k] == a[k];
      }
      var t := r[|a|..];
      assert t <= b && c !in t;
      assert |t| <= |r2| by {
        assert forall k :: 0 <= k < |b| ==> (a + b)[|a| + k] == b[k];
      }
      assert |r2| <= |t| by {
        assert c !in r2;
      }
      assert t == b[..|t|] == b[..|r2|] == r2;
      assert r == a + t;
    }
  }

  /** `s.split(c, 1)[1]` (requires a `c` in `s`): the text after the first `c`. */
  function AfterFirst(s: string, c: char): (r: string)
    requires c in s
    ensures s == BeforeFirst(s, c) + [c] + r
  {
    s[|BeforeFirst(s, c)| + 1..]
  }

  /** `s.replace(c, "")` for one character. */
  function RemoveChar(s: string, c: char): (r: string)
    ensures c !in r
    ensures forall i :: 0 <= i < |r| ==> r[i] in s
    ensures |r| == |s| - CountChar(s, c)
    decreases |s|
  {
    if s == [] then "" else (if s[0] == c then "" else [s[0]]) + RemoveChar(s[1..], c)
  }

  /** `s.replace(pat, rep)`: every non-overlapping occurrence, scanning left to right. */
  function ReplaceAll(s: string, pat: string, rep: string): (r: string)
    requires |pat| > 0
    ensures !Contains(s, pat) ==> r == s
    decreases |s|
  {
    if s == [] then s
    else if StartsWith(s, pat) then rep + ReplaceAll(s[|pat|..], pat, rep)
    else [s[0]] + ReplaceAll(s[1..], pat, rep)
  }

  /** `s.lower()` for ASCII letters (other characters are left alone). */
  function Lower(s: string): (r: string)
    ensures |r| == |s|
    ensures forall i :: 0 <= i < |s| ==> (if 'A' <= s[i] <= 'Z' then r[i] as int == s[i] as int + 32 else r[i] == s[i])
  {
    seq(|s|, i requires 0 <= i < |s| => if 'A' <= s[i] <= 'Z' then (s[i] as int + 32) as char else s[i])
  }

  /** A non-empty run of non-whitespace characters. */
  predicate IsWord(w: string) {
    w != [] && forall j :: 0 <= j < |w| ==> !IsSpace(w[j])
  }

  /** `s.split()`: the maximal runs of non-whitespace characters, in order. */
  function Words(s: string): (r: seq<string>)
    ensures forall i :: 0 <= i < |r| ==> IsWord(r[i])
    decreases |s|
  {
    var t := LStrip(s);
    if t == [] then []
    else
      var n := PrefixLen(t, NotSpace);
      var w := t[..n];
      assert n > 0 && forall j :: 0 <= j < |w| ==> NotSpace(w[j]);
      assert IsWord(w);
      [w] + Words(t[n..])
  }

  /** `s` with every whitespace character removed. */
  function DropSpaces(s: string): string
    decreases |s|
  {
    if s == [] then "" else (if IsSpace(s[0]) then "" else [s[0]]) + DropSpaces(s[1..])
  }

  lemma {:induction false} DropSpacesAppend(a: string, b: string)
    ensures DropSpaces(a + b) == DropSpaces(a) + DropSpaces(b)
    decreases |a|
  {
    if a == [] {
      assert a + b == b;
    } else {
      assert (a + b)[1..] == a[1..] + b;
      DropSpacesAppend(a[1..], b);
    }
  }

  lemma {:induction false} DropSpacesOfSpaces(s: string)
    requires forall i :: 0 <= i < |s| ==> IsSpace(s[i])
    ensures DropSpaces(s) == ""
    decreases |s|
  {
    if s != [] {
      DropSpacesOfSpaces(s[1..]);
    }
  }

  lemma {:induction false} DropSpacesOfWord(s: string)
    requires forall i :: 0 <= i < |s| ==> !IsSpace(s[i])
    ensures DropSpaces(s) == s
    decreases |s|
  {
    if s != [] {
      DropSpacesOfWord(s[1..]);
    }
  }

  /** The words of a query lose no character but whitespace and add none: gluing them back
      together gives the query with its whitespace removed. */
  lemma {:induction false} WordsKeepText(s: string)
    ensures Join(Words(s)) == DropSpaces(s)
    decreases |s|
  {
    var t := LStrip(s);
    var ind := Indent(s);
    DropSpacesAppend(ind, t);
    DropSpacesOfSpaces(ind);
    if t != [] {
      var n := PrefixLen(t, NotSpace);
      var w, rest := t[..n], t[n..];
      assert t == w + rest;
      DropSpacesAppend(w, rest);
      DropSpacesOfWord(w);
      WordsKeepText(rest);
      var ws := [w] + Words(rest);
      assert Words(s) == ws;
      assert ws[0] == w && ws[1..] == Words(rest);
      assert Join(ws) == w + Join(Words(rest));
    }
  }
}
