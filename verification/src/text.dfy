/** Python `str` operations used throughout the generator, over `seq<char>`.

    Only the behaviour the generator relies on is modelled: whitespace is the
    exact set Python's `str.isspace` accepts, case folding is ASCII-only, and
    integer parsing accepts ASCII digits only. */
module Text {
  import opened Wrappers

  /** Python's `str.isspace` for one character. */
  predicate IsSpace(c: char) {
    c == ' ' || ('\t' <= c <= '\r') || ('\U{1C}' <= c <= '\U{1F}') || c == '\U{85}'
    || c == '\U{A0}' || c == '\U{1680}' || ('\U{2000}' <= c <= '\U{200A}')
    || c == '\U{2028}' || c == '\U{2029}' || c == '\U{202F}' || c == '\U{205F}' || c == '\U{3000}'
  }

  /** A character of the CJK Unified Ideographs block U+4E00..U+9FFF. */
  predicate IsHan(c: char) {
    '\U{4E00}' <= c <= '\U{9FFF}'
  }

  predicate IsAsciiDigit(c: char) {
    '0' <= c <= '9'
  }

  predicate IsPrefix(p: string, s: string) {
    |p| <= |s| && s[..|p|] == p
  }

  predicate IsSuffix(p: string, s: string) {
    |p| <= |s| && s[|s| - |p|..] == p
  }

  /** Python's `sub in s`: `sub` occurs at some position of `s`. */
  predicate Contains(s: string, sub: string)
    decreases |s|
  {
    IsPrefix(sub, s) || (|s| > 0 && Contains(s[1..], sub))
  }

  /** `sub` occurs in `s` starting at index `i`. */
  predicate OccursAt(s: string, sub: string, i: int) {
    0 <= i <= |s| - |sub| && s[i..i + |sub|] == sub
  }

  /** `Contains` agrees with the positional definition of a substring. */
  lemma {:induction false} ContainsAt(s: string, sub: string)
    ensures Contains(s, sub) <==> exists i :: OccursAt(s, sub, i)
    decreases |s|
  {
    if IsPrefix(sub, s) {
      assert OccursAt(s, sub, 0);
    } else if |s| > 0 {
      ContainsAt(s[1..], sub);
      if Contains(s[1..], sub) {
        var i :| OccursAt(s[1..], sub, i);
        assert s[1..][i..i + |sub|] == s[i + 1..i + 1 + |sub|];
        assert OccursAt(s, sub, i + 1);
      }
      if exists i :: OccursAt(s, sub, i) {
        var i :| OccursAt(s, sub, i);
        if i > 0 {
          assert s[1..][i - 1..i - 1 + |sub|] == s[i..i + |sub|];
          assert OccursAt(s[1..], sub, i - 1);
        }
      }
    }
  }

  /** A one-character substring is present iff the character is. */
  lemma ContainsChar(s: string, c: char)
    ensures Contains(s, [c]) <==> c in s
  {
    ContainsAt(s, [c]);
    if c in s {
      var i :| 0 <= i < |s| && s[i] == c;
      assert OccursAt(s, [c], i);
    }
    if exists i :: OccursAt(s, [c], i) {
      var i :| OccursAt(s, [c], i);
      assert s[i] == s[i..i + 1][0];
    }
  }

  /** `s.index(c)`: the position of the first `c` in a string that holds one. */
  function IndexOf(s: string, c: char): (i: nat)
    requires c in s
    ensures i < |s| && s[i] == c && c !in s[..i]
  {
    if s[0] == c then 0
    else
      assert c in s[1..];
      var i := IndexOf(s[1..], c);
      assert s[..i + 1] == [s[0]] + s[1..][..i];
      i + 1
  }

  /** The first `c` is the one with no `c` before it. */
  lemma {:induction false} IndexOfUnique(s: string, c: char, i: nat)
    requires i < |s| && s[i] == c && c !in s[..i]
    ensures IndexOf(s, c) == i
  {
    if i > 0 {
      assert s[0] == s[..i][0];
      assert s[1..][..i - 1] == s[..i][1..];
      IndexOfUnique(s[1..], c, i - 1);
    }
  }

  /** Python's `str.lstrip()` with no argument. */
  function LStrip(s: string): (r: string)
    ensures IsSuffix(r, s)
    ensures r == [] || !IsSpace(r[0])
    ensures forall i :: 0 <= i < |s| - |r| ==> IsSpace(s[i])
  {
    if |s| > 0 && IsSpace(s[0]) then LStrip(s[1..]) else s
  }

  /** Python's `str.rstrip()` with no argument. */
  function RStrip(s: string): (r: string)
    ensures IsPrefix(r, s)
    ensures r == [] || !IsSpace(r[|r| - 1])
    ensures forall i :: |r| <= i < |s| ==> IsSpace(s[i])
  {
    if |s| > 0 && IsSpace(s[|s| - 1]) then RStrip(s[..|s| - 1]) else s
  }

  /** Python's `str.strip()` with no argument. */
  function Strip(s: string): (r: string)
    ensures r == [] || (!IsSpace(r[0]) && !IsSpace(r[|r| - 1]))
    ensures exists i :: OccursAt(s, r, i)
  {
    var l := LStrip(s);
    var r := RStrip(l);
    assert s[|s| - |l|..][..|r|] == s[|s| - |l|..|s| - |l| + |r|];
    assert OccursAt(s, r, |s| - |l|);
    r
  }

  /** Stripping a string whose ends are not whitespace changes nothing. */
  lemma StripNoSpaceEnds(s: string)
    requires s == [] || (!IsSpace(s[0]) && !IsSpace(s[|s| - 1]))
    ensures Strip(s) == s
  {
  }

  /** Python's `sep.join(xs)`. */
  function Join(sep: string, xs: seq<string>): string
  {
    if |xs| == 0 then "" else if |xs| == 1 then xs[0] else xs[0] + sep + Join(sep, xs[1..])
  }

  lemma JoinCons(sep: string, x: string, xs: seq<string>)
    requires |xs| > 0
    ensures Join(sep, [x] + xs) == x + sep + Join(sep, xs)
  {
    assert ([x] + xs)[1..] == xs;
  }

  /** Python's `s.split(sep)` for a one-character separator. */
  function Split(s: string, sep: char): (r: seq<string>)
    ensures |r| >= 1
    ensures forall i :: 0 <= i < |r| ==> sep !in r[i]
  {
    if |s| == 0 then [""]
    else
      var rest := Split(s[1..], sep);
      if s[0] == sep then [""] + rest else [[s[0]] + rest[0]] + rest[1..]
  }

  /** Splitting and re-joining with the same separator restores the string. */
  lemma {:induction false} JoinSplit(s: string, sep: char)
    ensures Join([sep], Split(s, sep)) == s
  {
    if |s| > 0 {
      var rest := Split(s[1..], sep);
      JoinSplit(s[1..], sep);
      if s[0] == sep {
        JoinCons([sep], "", rest);
      } else if |rest| == 1 {
        assert Split(s, sep) == [[s[0]] + rest[0]];
      } else {
        assert Split(s, sep) == [[s[0]] + rest[0]] + rest[1..];
        JoinCons([sep], [s[0]] + rest[0], rest[1..]);
        JoinCons([sep], rest[0], rest[1..]);
        assert [rest[0]] + rest[1..] == rest;
      }
    }
  }

  /** The number of pieces `s.split(sep)` yields is one more than the separators in `s`. */
  lemma {:induction false} SplitCount(s: string, sep: char)
    ensures |Split(s, sep)| == CountChar(s, sep) + 1
  {
    if |s| > 0 {
      SplitCount(s[1..], sep);
    }
  }

  /** Python's `s.count(c)` for a one-character substring. */
  function CountChar(s: string, c: char): (n: nat)
    ensures n <= |s|
    ensures n == 0 <==> c !in s
  {
    if |s| == 0 then 0 else (if s[0] == c then 1 else 0) + CountChar(s[1..], c)
  }

  /** The length of the run of non-whitespace characters that starts `s`. */
  function WordSpan(s: string): (k: nat)
    ensures k <= |s|
    ensures forall i :: 0 <= i < k ==> !IsSpace(s[i])
    ensures k == |s| || IsSpace(s[k])
  {
    if |s| == 0 || IsSpace(s[0]) then 0 else 1 + WordSpan(s[1..])
  }

  /** A word in the sense of Python's `str.split()`: non-empty, no whitespace. */
  predicate IsWord(w: string) {
    |w| > 0 && forall i :: 0 <= i < |w| ==> !IsSpace(w[i])
  }

  /** Python's `s.split()` with no argument: the maximal runs of non-whitespace. */
  function Words(s: string): seq<string>
    decreases |s|
  {
    var t := LStrip(s);
    if t == [] then []
    else
      var k := WordSpan(t);
      [t[..k]] + Words(t[k..])
  }

  /** Every piece `s.split()` yields is a word. */
  lemma {:induction false} WordsAreWords(s: string)
    ensures forall i :: 0 <= i < |Words(s)| ==> IsWord(Words(s)[i])
    decreases |s|
  {
    var t := LStrip(s);
    if t != [] {
      var k := WordSpan(t);
      WordsAreWords(t[k..]);
      assert IsWord(t[..k]);
    }
  }

  lemma WordSpanWord(w: string, rest: string)
    requires IsWord(w)
    requires rest == [] || IsSpace(rest[0])
    ensures WordSpan(w + rest) == |w|
    decreases |w|
  {
    if |w| > 1 {
      assert (w + rest)[1..] == w[1..] + rest;
      WordSpanWord(w[1..], rest);
    } else {
      assert (w + rest)[1..] == rest;
    }
  }

  lemma WordsSpaceCons(rest: string)
    ensures Words(" " + rest) == Words(rest)
  {
    assert (" " + rest)[1..] == rest;
    assert LStrip(" " + rest) == LStrip(rest);
  }

  /** A word followed by a string that starts with whitespace (or nothing) splits off first. */
  lemma WordsWordCons(w: string, rest: string)
    requires IsWord(w)
    requires rest == [] || IsSpace(rest[0])
    ensures Words(w + rest) == [w] + Words(rest)
  {
    var s := w + rest;
    assert s[0] == w[0] && !IsSpace(s[0]);
    assert LStrip(s) == s;
    WordSpanWord(w, rest);
    assert s[..|w|] == w;
    assert s[|w|..] == rest;
    assert Words(s) == [s[..WordSpan(s)]] + Words(s[WordSpan(s)..]);
  }

  /** Words joined by single spaces split back into the same words. */
  lemma {:induction false} WordsJoin(ws: seq<string>)
    requires forall i :: 0 <= i < |ws| ==> IsWord(ws[i])
    ensures Words(Join(" ", ws)) == ws
  {
    if |ws| == 0 {
      assert Join(" ", ws) == "";
    } else if |ws| == 1 {
      assert Join(" ", ws) == ws[0] == ws[0] + "";
      WordsWordCons(ws[0], "");
      assert Words("") == [];
    } else {
      var w, tail := ws[0], ws[1..];
      assert IsWord(w);
      assert forall i :: 0 <= i < |tail| ==> IsWord(tail[i]) by {
        forall i | 0 <= i < |tail| ensures IsWord(tail[i]) { assert tail[i] == ws[i + 1]; }
      }
      var rest := Join(" ", tail);
      assert ws == [w] + tail;
      JoinCons(" ", w, tail);
      assert Join(" ", ws) == w + (" " + rest);
      WordsWordCons(w, " " + rest);
      WordsSpaceCons(rest);
      WordsJoin(tail);
    }
  }


  /** Python's `s.replace(old, new)` for a non-empty `pat`: leftmost, non-overlapping. */
  function Replace(s: string, pat: string, rep: string): string
    requires |pat| > 0
    decreases |s|
  {
    if |s| < |pat| then s
    else if s[..|pat|] == pat then rep + Replace(s[|pat|..], pat, rep)
    else [s[0]] + Replace(s[1..], pat, rep)
  }

  /** Deleting substrings never introduces a character that was not there. */
  lemma {:induction false} ReplaceEmptyChars(s: string, pat: string)
    requires |pat| > 0
    ensures forall c :: c in Replace(s, pat, "") ==> c in s
    decreases |s|
  {
    if |s| >= |pat| {
      if s[..|pat|] == pat {
        ReplaceEmptyChars(s[|pat|..], pat);
      } else {
        ReplaceEmptyChars(s[1..], pat);
      }
    }
  }

  /** Deleting every occurrence of one character leaves none of it. */
  lemma {:induction false} ReplaceCharGone(s: string, c: char)
    ensures c !in Replace(s, [c], "")
    decreases |s|
  {
    if |s| >= 1 {
      ReplaceCharGone(s[1..], c);
    }
  }

  /** Python's `s.replace(old, new)` where `pat` does not occur: nothing changes. */
  lemma {:induction false} ReplaceAbsent(s: string, pat: string, rep: string)
    requires |pat| > 0
    requires !Contains(s, pat)
    ensures Replace(s, pat, rep) == s
    decreases |s|
  {
    if |s| >= |pat| {
      ReplaceAbsent(s[1..], pat, rep);
    }
  }

  /** Removes every character of `cs` (a regex character-class deletion). */
  function RemoveChars(s: string, cs: set<char>): (r: string)
    ensures forall i :: 0 <= i < |r| ==> r[i] !in cs && r[i] in s
    ensures |r| <= |s|
  {
    if |s| == 0 then ""
    else if s[0] in cs then RemoveChars(s[1..], cs)
    else [s[0]] + RemoveChars(s[1..], cs)
  }

  /** Removing characters none of which occur changes nothing. */
  lemma {:induction false} RemoveCharsNone(s: string, cs: set<char>)
    requires forall i :: 0 <= i < |s| ==> s[i] !in cs
    ensures RemoveChars(s, cs) == s
  {
    if |s| > 0 {
      RemoveCharsNone(s[1..], cs);
      assert s == [s[0]] + s[1..];
    }
  }

  /** The part of `s` before its first character from `cs` (a regex
      `[cs].*` deletion on one line). */
  function CutAtAny(s: string, cs: set<char>): (r: string)
    ensures IsPrefix(r, s)
    ensures forall i :: 0 <= i < |r| ==> r[i] !in cs
    ensures |r| == |s| || s[|r|] in cs
  {
    if |s| == 0 || s[0] in cs then "" else [s[0]] + CutAtAny(s[1..], cs)
  }

  /** `CutAtAny` applied to every line. */
  function CutEach(lines: seq<string>, cs: set<char>): (r: seq<string>)
    ensures |r| == |lines|
    ensures forall i :: 0 <= i < |lines| ==> r[i] == CutAtAny(lines[i], cs)
  {
    if |lines| == 0 then [] else [CutAtAny(lines[0], cs)] + CutEach(lines[1..], cs)
  }

  /** `re.sub(r'[cs].*', '', s)`: since `.` stops at a newline, every line is
      cut at its first character from `cs`. */
  function CutLines(s: string, cs: set<char>): string {
    Join("\n", CutEach(Split(s, '\n'), cs))
  }

  /** A string without the separator splits into itself. */
  lemma SplitNoSep(s: string, sep: char)
    requires sep !in s
    ensures Split(s, sep) == [s]
  {
    SplitCount(s, sep);
    JoinSplit(s, sep);
  }

  /** A single line free of cut characters is left as it is. */
  lemma CutLinesNone(s: string, cs: set<char>)
    requires '\n' !in s
    requires forall i :: 0 <= i < |s| ==> s[i] !in cs
    ensures CutLines(s, cs) == s
  {
    SplitNoSep(s, '\n');
    assert CutAtAny(s, cs) == s;
  }

  /** A string made of two separator-free pieces around one separator
      splits into exactly those two pieces. */
  lemma {:induction false} SplitAroundSep(s: string, t: string, sep: char)
    requires sep !in s && sep !in t
    ensures Split(s + [sep] + t, sep) == [s, t]
  {
    var u := s + [sep] + t;
    if |s| == 0 {
      assert u[1..] == t;
      SplitNoSep(t, sep);
    } else {
      assert u[1..] == s[1..] + [sep] + t;
      SplitAroundSep(s[1..], t, sep);
      assert [s[0]] + s[1..] == s;
    }
  }

  /** The first piece of a split is everything before the first separator. */
  lemma {:induction false} SplitHead(s: string, t: string, sep: char)
    requires sep !in s
    ensures Split(s + [sep] + t, sep)[0] == s
  {
    var u := s + [sep] + t;
    if |s| > 0 {
      assert u[1..] == s[1..] + [sep] + t;
      SplitHead(s[1..], t, sep);
      assert [s[0]] + s[1..] == s;
    }
  }

  /** A substring whose first character is absent does not occur. */
  lemma ContainsFirstChar(s: string, sub: string)
    requires |sub| > 0 && sub[0] !in s
    ensures !Contains(s, sub)
  {
    ContainsAt(s, sub);
    forall i | 0 <= i <= |s| - |sub| ensures !OccursAt(s, sub, i) {
      assert s[i..i + |sub|][0] == s[i];
    }
  }

  /** A string contains whatever it ends with. */
  /** What a string contains, a longer string around it contains too. */
  lemma ContainsWithin(a: string, s: string, b: string, sub: string)
    requires Contains(s, sub)
    ensures Contains(a + s + b, sub)
  {
    ContainsAt(s, sub);
    var i :| OccursAt(s, sub, i);
    assert (a + s + b)[|a| + i..|a| + i + |sub|] == s[i..i + |sub|];
    assert OccursAt(a + s + b, sub, |a| + i);
    ContainsAt(a + s + b, sub);
  }

  /** A joined string contains each of its parts. */
  lemma {:induction false} JoinContains(sep: string, xs: seq<string>, i: nat)
    requires i < |xs|
    ensures Contains(Join(sep, xs), xs[i])
  {
    ContainsAt(xs[i], xs[i]);
    assert OccursAt(xs[i], xs[i], 0);
    if |xs| == 1 {
    } else if i == 0 {
      ContainsWithin([], xs[0], sep + Join(sep, xs[1..]), xs[0]);
      assert [] + xs[0] + (sep + Join(sep, xs[1..])) == Join(sep, xs);
    } else {
      JoinContains(sep, xs[1..], i - 1);
      ContainsWithin(xs[0] + sep, Join(sep, xs[1..]), [], xs[i]);
      assert xs[0] + sep + Join(sep, xs[1..]) + [] == Join(sep, xs);
    }
  }

  lemma ContainsEnd(s: string, sub: string)
    ensures Contains(s + sub, sub)
  {
    ContainsAt(s + sub, sub);
    assert (s + sub)[|s|..|s| + |sub|] == sub;
    assert OccursAt(s + sub, sub, |s|);
  }

  /** Replacement skips over a prefix in which the pattern cannot start. */
  lemma {:induction false} ReplaceAfterPlain(s: string, t: string, pat: string, rep: string)
    requires |pat| > 0
    requires forall i :: 0 <= i < |s| ==> s[i] != pat[0]
    ensures Replace(s + t, pat, rep) == s + Replace(t, pat, rep)
    decreases |s|
  {
    var u := s + t;
    if |s| > 0 && |u| >= |pat| {
      assert u[..|pat|][0] == s[0];
      assert u[1..] == s[1..] + t;
      ReplaceAfterPlain(s[1..], t, pat, rep);
      assert [s[0]] + s[1..] == s;
    } else if |s| == 0 {
      assert u == t;
    }
  }

  /** Deleting the pattern from a string that is the pattern leaves `rep`. */
  lemma ReplaceWhole(pat: string, rep: string)
    requires |pat| > 0
    ensures Replace(pat, pat, rep) == rep
  {
    assert pat[..|pat|] == pat;
    assert Replace(pat[|pat|..], pat, rep) == "";
  }

  /** Appending a zero digit multiplies by ten. */
  lemma NatToStrTimesTen(m: nat)
    requires m >= 1
    ensures NatToStr(10 * m) == NatToStr(m) + "0"
  {
    assert (10 * m) / 10 == m && (10 * m) % 10 == 0;
  }

  /** Appending three zero digits multiplies by a thousand. */
  lemma NatToStrThousand(k: nat)
    requires k >= 1
    ensures NatToStr(1000 * k) == NatToStr(k) + "000"
  {
    NatToStrTimesTen(k);
    NatToStrTimesTen(10 * k);
    assert 10 * (10 * k) == 100 * k && 10 * (100 * k) == 1000 * k;
    NatToStrTimesTen(100 * k);
    assert NatToStr(k) + "0" + "0" + "0" == NatToStr(k) + "000";
  }

  /** ASCII case folding of Python's `str.lower`. */
  function LowerChar(c: char): char {
    if 'A' <= c <= 'Z' then (c as int + 32) as char else c
  }

  function Lower(s: string): (r: string)
    ensures |r| == |s|
    ensures forall i :: 0 <= i < |s| ==> r[i] == LowerChar(s[i])
  {
    seq(|s|, i requires 0 <= i < |s| => LowerChar(s[i]))
  }

  /** Lower-casing a string without capitals changes nothing. */
  lemma LowerNoUpper(s: string)
    requires forall i :: 0 <= i < |s| ==> !('A' <= s[i] <= 'Z')
    ensures Lower(s) == s
  {
  }

  /** Python's `s * n`. */
  function Repeat(s: string, n: int): (r: string)
    ensures |r| == if n > 0 then n * |s| else 0
    decreases if n > 0 then n else 0
  {
    if n <= 0 then "" else s + Repeat(s, n - 1)
  }

  function DigitChar(d: nat): char
    requires d < 10
  {
    ('0' as int + d) as char
  }

  /** Decimal rendering of a natural number (Python `str(n)`). */
  function NatToStr(n: nat): (r: string)
    ensures |r| > 0
    ensures forall i :: 0 <= i < |r| ==> IsAsciiDigit(r[i])
  {
    if n < 10 then [DigitChar(n)] else NatToStr(n / 10) + [DigitChar(n % 10)]
  }

  /** Decimal rendering of an integer (Python `str(i)` / f-string `{i}`). */
  function IntToStr(i: int): string
  {
    if i < 0 then "-" + NatToStr(-i) else NatToStr(i)
  }

  predicate IsDigits(s: string) {
    |s| > 0 && forall i :: 0 <= i < |s| ==> IsAsciiDigit(s[i])
  }

  /** The value of a string of ASCII digits. */
  function DigitsValue(s: string): nat
    requires forall i :: 0 <= i < |s| ==> IsAsciiDigit(s[i])
  {
    if |s| == 0 then 0
    else
      assert IsAsciiDigit(s[|s| - 1]);
      10 * DigitsValue(s[..|s| - 1]) + (s[|s| - 1] as int - '0' as int)
  }

  /** Python's `int(s)` on a string: surrounding whitespace, one optional sign, then digits. */
  function ParseInt(s: string): Option<int>
  {
    var t := Strip(s);
    if |t| > 0 && (t[0] == '-' || t[0] == '+') then
      if IsDigits(t[1..]) then
        var v: int := DigitsValue(t[1..]);
        Some(if t[0] == '-' then -v else v)
      else None
    else if IsDigits(t) then Some(DigitsValue(t))
    else None
  }

  lemma {:induction false} DigitsValueNatToStr(n: nat)
    ensures DigitsValue(NatToStr(n)) == n
  {
    if n >= 10 {
      DigitsValueNatToStr(n / 10);
      var r := NatToStr(n);
      assert r[..|r| - 1] == NatToStr(n / 10);
    }
  }

  lemma ParseNatStr(n: nat)
    ensures ParseInt(NatToStr(n)) == Some(n)
  {
    var d := NatToStr(n);
    DigitsValueNatToStr(n);
    StripNoSpaceEnds(d);
    assert IsDigits(d);
  }

  /** Parsing the rendering of an integer gives the integer back. */
  lemma ParseIntToStr(i: int)
    ensures ParseInt(IntToStr(i)) == Some(i)
  {
    if i < 0 {
      var d := NatToStr(-i);
      DigitsValueNatToStr(-i);
      var s := "-" + d;
      assert !IsSpace(s[|s| - 1]) by { assert s[|s| - 1] == d[|d| - 1]; }
      StripNoSpaceEnds(s);
      assert s[1..] == d;
      assert IsDigits(d);
    } else {
      ParseNatStr(i);
    }
  }

  /** Python's `str.isdigit()` restricted to ASCII digits. */
  predicate IsDigitStr(s: string) {
    IsDigits(s)
  }
}
