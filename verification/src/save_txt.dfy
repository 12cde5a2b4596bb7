/** `modules/save_txt.py`: the formatter that lays a finished story out
    as one plain-text file.

    The title page, the work-information block and the generation-info
    block print the clock and format numbers with thousands separators and
    one decimal; they are passed in as finished strings.  Story-package
    fields that the source reads with `.get(key, default)` are typed
    fields here, with the default already filled in. */
module SaveTxt {
  import opened Wrappers
  import Seqs
  import Text

  // ---------------------------------------------------------- paragraphs

  /** The width `_format_paragraph` wraps at. */
  const LineWidth := 80

  /** A line of words joined by single spaces is at most `width` long. */
  predicate Fits(g: seq<string>, width: int) {
    |Text.Join(" ", g)| <= width
  }

  /** The wrapping loop of `_format_paragraph`, on the words of each line:
      `cur` holds the words of the line being built.  A word joins it when
      the line with the word still fits; otherwise the line is closed (when
      it has words) and the word starts the next one, however long it is. */
  function Group(ws: seq<string>, cur: seq<string>, width: int): (gs: seq<seq<string>>)
    ensures Seqs.Flatten(gs) == cur + ws
    ensures forall i :: 0 <= i < |gs| ==> |gs[i]| > 0
    ensures |cur| > 0 ==> |gs| > 0 && |gs[0]| >= |cur| && gs[0][..|cur|] == cur
    decreases |ws|
  {
    if |ws| == 0 then (if |cur| > 0 then [cur] else [])
    else
      assert ws == [ws[0]] + ws[1..];
      if Fits(cur + [ws[0]], width) then
        var gs := Group(ws[1..], cur + [ws[0]], width);
        assert gs[0][..|cur|] == (gs[0][..|cur| + 1])[..|cur|];
        gs
      else
        var rest := Group(ws[1..], [ws[0]], width);
        if |cur| > 0 then
          assert rest[0][0] == ws[0];
          [cur] + rest
        else rest
  }

  /** Lines of words laid out as `_format_paragraph` promises: each fits
      the width unless it is one long word, and none could have taken the
      first word of the next. */
  predicate WellWrapped(gs: seq<seq<string>>, width: int)
    requires forall i :: 0 <= i < |gs| ==> |gs[i]| > 0
  {
    && (forall i :: 0 <= i < |gs| ==> Fits(gs[i], width) || |gs[i]| == 1)
    && (forall i :: 0 <= i < |gs| - 1 ==> !Fits(gs[i] + [gs[i + 1][0]], width))
  }

  /** Grouping from a line that fits (or holds at most one word) wraps
      well. */
  lemma {:induction false} GroupFits(ws: seq<string>, cur: seq<string>, width: int)
    requires Fits(cur, width) || |cur| <= 1
    ensures WellWrapped(Group(ws, cur, width), width)
    decreases |ws|
  {
    if |ws| > 0 {
      if Fits(cur + [ws[0]], width) {
        GroupFits(ws[1..], cur + [ws[0]], width);
      } else {
        GroupFits(ws[1..], [ws[0]], width);
        var rest := Group(ws[1..], [ws[0]], width);
        if |cur| > 0 {
          var gs := [cur] + rest;
          assert Group(ws, cur, width) == gs;
          assert gs[1][0] == ws[0];
          assert forall i :: 1 <= i < |gs| ==> gs[i] == rest[i - 1];
        }
      }
    }
  }

  /** The line the source's loop holds for the words `cur`: the words
      joined by spaces with a trailing space, or nothing. */
  function LineOf(cur: seq<string>): string {
    if |cur| == 0 then "" else Text.Join(" ", cur) + " "
  }

  /** The loop of `_format_paragraph` as written, on the string it builds. */
  function PyWrap(ws: seq<string>, line: string, width: int): seq<string>
    decreases |ws|
  {
    if |ws| == 0 then (if line != "" then [Text.Strip(line)] else [])
    else if |line + ws[0]| <= width then PyWrap(ws[1..], line + ws[0] + " ", width)
    else (if line != "" then [Text.Strip(line)] else []) + PyWrap(ws[1..], ws[0] + " ", width)
  }

  /** Each group of words joined by single spaces. */
  function JoinEach(gs: seq<seq<string>>): (ls: seq<string>)
    ensures |ls| == |gs|
    ensures forall i :: 0 <= i < |gs| ==> ls[i] == Text.Join(" ", gs[i])
  {
    seq(|gs|, i requires 0 <= i < |gs| => Text.Join(" ", gs[i]))
  }

  lemma JoinEachConcat(a: seq<seq<string>>, b: seq<seq<string>>)
    ensures JoinEach(a + b) == JoinEach(a) + JoinEach(b)
  {
    var l, r := JoinEach(a + b), JoinEach(a) + JoinEach(b);
    assert |l| == |r|;
    forall i | 0 <= i < |l| ensures l[i] == r[i] {
      if i < |a| {
        assert (a + b)[i] == a[i];
      } else {
        assert (a + b)[i] == b[i - |a|];
      }
    }
  }

  predicate AllWords(ws: seq<string>) {
    forall i :: 0 <= i < |ws| ==> Text.IsWord(ws[i])
  }

  lemma {:induction false} JoinSnoc(cur: seq<string>, w: string)
    requires |cur| > 0
    ensures Text.Join(" ", cur + [w]) == Text.Join(" ", cur) + " " + w
  {
    if |cur| > 1 {
      assert (cur + [w])[1..] == cur[1..] + [w];
      JoinSnoc(cur[1..], w);
    }
  }

  /** Words joined by spaces start and end with a non-space. */
  lemma {:induction false} JoinWordsEnds(ws: seq<string>)
    requires |ws| > 0 && AllWords(ws)
    ensures var s := Text.Join(" ", ws);
      |s| > 0 && !Text.IsSpace(s[0]) && !Text.IsSpace(s[|s| - 1])
  {
    if |ws| > 1 {
      JoinWordsEnds(ws[1..]);
      assert Text.IsWord(ws[0]);
    } else {
      assert Text.IsWord(ws[0]);
    }
  }

  /** Stripping a line of words with its trailing space gives the words
      joined by spaces. */
  lemma StripLine(cur: seq<string>)
    requires |cur| > 0 && AllWords(cur)
    ensures Text.Strip(LineOf(cur)) == Text.Join(" ", cur)
  {
    var j := Text.Join(" ", cur);
    JoinWordsEnds(cur);
    var s := j + " ";
    assert Text.LStrip(s) == s;
    assert s[..|s| - 1] == j;
    assert Text.RStrip(s) == Text.RStrip(j);
    assert Text.RStrip(j) == j;
  }

  /** Adding a word to the line: the string grows by the word and a space,
      and its length before the space is that of the words joined. */
  lemma LineStep(cur: seq<string>, w: string)
    ensures LineOf(cur) + w + " " == LineOf(cur + [w])
    ensures |LineOf(cur) + w| == |Text.Join(" ", cur + [w])|
  {
    if |cur| > 0 {
      JoinSnoc(cur, w);
    } else {
      assert cur + [w] == [w];
    }
  }

  /** The line the loop closes is the words joined by spaces. */
  lemma Closed(cur: seq<string>)
    requires AllWords(cur)
    ensures (if LineOf(cur) != "" then [Text.Strip(LineOf(cur))] else []) == JoinEach(if |cur| > 0 then [cur] else [])
  {
    if |cur| > 0 {
      StripLine(cur);
    }
  }

  /** The source's loop on strings builds exactly the grouped lines. */
  lemma {:induction false} PyWrapIsGroup(ws: seq<string>, cur: seq<string>, width: int)
    requires AllWords(ws) && AllWords(cur)
    ensures PyWrap(ws, LineOf(cur), width) == JoinEach(Group(ws, cur, width))
    decreases |ws|
  {
    if |ws| == 0 {
      Closed(cur);
    } else {
      var w := ws[0];
      assert AllWords(ws[1..]) by {
        forall i | 0 <= i < |ws[1..]| ensures Text.IsWord(ws[1..][i]) {
          assert ws[1..][i] == ws[i + 1];
        }
      }
      if Fits(cur + [w], width) {
        assert AllWords(cur + [w]) by {
          forall i | 0 <= i < |cur + [w]| ensures Text.IsWord((cur + [w])[i]) {
            if i < |cur| { assert (cur + [w])[i] == cur[i]; }
          }
        }
        PyWrapIsGroup(ws[1..], cur + [w], width);
        assert PyWrap(ws, LineOf(cur), width) == PyWrap(ws[1..], LineOf(cur + [w]), width) by {
          LineStep(cur, w);
        }
      } else {
        assert AllWords([w]);
        PyWrapIsGroup(ws[1..], [w], width);
        var first: seq<seq<string>> := if |cur| > 0 then [cur] else [];
        var rest := Group(ws[1..], [w], width);
        assert Group(ws, cur, width) == first + rest;
        JoinEachConcat(first, rest);
        assert PyWrap(ws, LineOf(cur), width) == JoinEach(first) + PyWrap(ws[1..], LineOf([w]), width) by {
          LineStep(cur, w);
          LineStep([], w);
          assert [] + [w] == [w];
          Closed(cur);
        }
      }
    }
  }

  /** `_format_paragraph`: the text's words, wrapped to lines of at most
      `width` characters (a longer word gets a line of its own), one line
      per row.  Collapsing the whitespace of the stripped text and
      splitting at single spaces yields the text's words; for a text of
      whitespace only it yields one empty word, which produces the same
      empty result. */
  function FormatParagraph(text: string, width: int): (r: string)
    ensures r == "" <==> Text.Words(text) == []
  {
    if text == "" then ""
    else
      var ws := Text.Words(text);
      Text.WordsAreWords(text);
      WrapEmptyIff(ws, width);
      Text.Join("\n", PyWrap(ws, "", width))
  }

  /** Wrapping produces text exactly when there are words. */
  lemma WrapEmptyIff(ws: seq<string>, width: int)
    requires AllWords(ws)
    ensures Text.Join("\n", PyWrap(ws, "", width)) == "" <==> ws == []
  {
    PyWrapIsGroup(ws, [], width);
    var gs := Group(ws, [], width);
    assert Seqs.Flatten(gs) == ws;
    if |gs| > 0 {
      assert AllWords(gs[0]) by {
        forall i | 0 <= i < |gs[0]| ensures Text.IsWord(gs[0][i]) {
          assert gs[0][i] in Seqs.Flatten(gs);
        }
      }
      JoinWordsEnds(gs[0]);
      var ls := JoinEach(gs);
      if |ls| > 1 {
        assert Text.Join("\n", ls) == ls[0] + "\n" + Text.Join("\n", ls[1..]);
      }
    }
  }

  /** What `_format_paragraph` promises: its lines hold the text's words in
      order, each line fits the width unless it is one long word, and no
      line could have taken the first word of the next. */
  lemma ParagraphLayout(text: string, width: int)
    requires Text.Words(text) != []
    ensures var gs := Group(Text.Words(text), [], width);
      && FormatParagraph(text, width) == Text.Join("\n", JoinEach(gs))
      && Seqs.Flatten(gs) == Text.Words(text)
      && WellWrapped(gs, width)
  {
    Text.WordsAreWords(text);
    PyWrapIsGroup(Text.Words(text), [], width);
    GroupFits(Text.Words(text), [], width);
  }

  // ---------------------------------------------------------- truncation

  const Ellipsis := "..."

  /** `_truncate_text`: a text longer than `maxLength` keeps its first
      `maxLength - 3` characters (a negative count drops that many from the
      end, as Python slicing does) followed by "...". */
  function Truncate(text: string, maxLength: int): (r: string)
    ensures |text| <= maxLength ==> r == text
    ensures |text| > maxLength ==> Text.IsSuffix(Ellipsis, r) && Text.IsPrefix(r[..|r| - 3], text)
    ensures |text| > maxLength >= 3 ==> |r| == maxLength
    ensures 0 <= maxLength < 3 < |text| ==> |r| == |text| + maxLength
  {
    if |text| <= maxLength then text
    else
      var head := Seqs.PyPrefix(text, maxLength - 3);
      assert (head + Ellipsis)[..|head|] == head;
      head + Ellipsis
  }

  /** A limit of 1 slices with `text[:-2]`: two characters go from the
      end and the result is longer than the limit. */
  lemma TruncateShortLimit()
    ensures Truncate("abcdef", 1) == "abcd..."
  {
    assert Seqs.PyPrefix("abcdef", -2) == "abcd";
  }

  /** For a limit of at least three the result is never longer than the
      limit, and truncating again changes nothing. */
  lemma TruncateBounded(text: string, maxLength: int)
    requires maxLength >= 3
    ensures |Truncate(text, maxLength)| <= maxLength
    ensures Truncate(Truncate(text, maxLength), maxLength) == Truncate(text, maxLength)
  {
  }

  // -------------------------------------------------------- chapter text

  const Indent := "    "

  /** A non-blank line, stripped and indented; a blank line is dropped. */
  function IndentLine(line: string): Option<string> {
    var t := Text.Strip(line);
    if t != "" then Some(Indent + t) else None
  }

  /** The indented paragraphs of a chapter, one per non-blank line. */
  function Paragraphs(content: string): seq<string> {
    Seqs.Choose(Text.Split(content, '\n'), IndentLine)
  }

  /** `_format_chapter_content`: the non-blank lines, stripped and indented
      by four spaces, separated by blank lines. */
  function ChapterContent(content: string): (r: string)
    ensures r == "" <==> Paragraphs(content) == []
  {
    if content == "" then ""
    else
      ParagraphsIndented(content);
      NonEmptyJoin(Paragraphs(content));
      Text.Join("\n\n", Paragraphs(content))
  }

  /** A line with no surrounding white space and no line break. */
  predicate Stripped(q: string) {
    |q| > 0 && '\n' !in q && !Text.IsSpace(q[0]) && !Text.IsSpace(q[|q| - 1])
  }

  /** A paragraph: four spaces and a stripped line. */
  predicate Indented(p: string) {
    |p| >= |Indent| && p[..|Indent|] == Indent && Stripped(p[|Indent|..])
  }

  lemma IndentLineIndented(line: string)
    requires '\n' !in line
    ensures IndentLine(line).Some? ==> Indented(IndentLine(line).value)
  {
    var t := Text.Strip(line);
    if t != "" {
      var i :| Text.OccursAt(line, t, i);
      forall j | 0 <= j < |t| ensures t[j] != '\n' {
        assert t[j] == line[i + j];
      }
      var p := Indent + t;
      assert p[..|Indent|] == Indent && p[|Indent|..] == t;
    }
  }

  lemma {:induction false} ChooseIndented(lines: seq<string>)
    requires forall k :: 0 <= k < |lines| ==> '\n' !in lines[k]
    ensures forall p :: p in Seqs.Choose(lines, IndentLine) ==> Indented(p)
  {
    if |lines| > 0 {
      IndentLineIndented(lines[0]);
      ChooseIndented(lines[1..]);
    }
  }

  lemma ParagraphsIndented(content: string)
    ensures forall p :: p in Paragraphs(content) ==> Indented(p)
  {
    ChooseIndented(Text.Split(content, '\n'));
  }

  /** Joining non-empty items is empty exactly when there are none. */
  lemma NonEmptyJoin(ps: seq<string>)
    requires forall p :: p in ps ==> |p| > 0
    ensures Text.Join("\n\n", ps) == "" <==> ps == []
  {
    if |ps| > 1 {
      assert Text.Join("\n\n", ps) == ps[0] + "\n\n" + Text.Join("\n\n", ps[1..]);
    } else if |ps| == 1 {
      assert ps[0] in ps;
    }
  }

  /** Splitting at a separator that does not occur in the first piece
      splits that piece off. */
  lemma {:induction false} SplitCons(s: string, t: string, sep: char)
    requires sep !in s
    ensures Text.Split(s + [sep] + t, sep) == [s] + Text.Split(t, sep)
  {
    var u := s + [sep] + t;
    if |s| == 0 {
      assert u[1..] == t;
    } else {
      assert u[1..] == s[1..] + [sep] + t;
      SplitCons(s[1..], t, sep);
      assert [s[0]] + s[1..] == s;
    }
  }

  /** A paragraph followed by a blank line splits into itself, an empty
      line and the rest. */
  lemma SplitParagraph(p: string, rest: string)
    requires '\n' !in p
    ensures Text.Split(p + "\n\n" + rest, '\n') == [p, ""] + Text.Split(rest, '\n')
  {
    assert p + "\n\n" + rest == p + ['\n'] + ([] + ['\n'] + rest);
    SplitCons(p, [] + ['\n'] + rest, '\n');
    SplitCons([], rest, '\n');
  }

  /** A paragraph is its own formatting. */
  lemma IndentLineFixed(p: string)
    requires Indented(p)
    ensures IndentLine(p) == Some(p)
  {
    var q := p[|Indent|..];
    assert p == Indent + q;
    assert p[1..] == "   " + q;
    assert p[2..] == "  " + q;
    assert p[3..] == " " + q;
    assert Text.LStrip(p) == q;
    Text.StripNoSpaceEnds(q);
  }

  /** An item that is kept, then one that is dropped, then the rest. */
  lemma ChooseKeepDrop<A, R>(a: A, b: A, xs: seq<A>, f: A -> Option<R>)
    requires f(a).Some? && f(b).None?
    ensures Seqs.Choose([a, b] + xs, f) == [f(a).value] + Seqs.Choose(xs, f)
  {
    assert ([a, b] + xs)[1..] == [b] + xs;
    assert ([b] + xs)[1..] == xs;
  }

  lemma BlankDropped()
    ensures IndentLine("") == None
  {
  }

  /** A single paragraph formats to itself. */
  lemma ReformatOne(p: string)
    requires Indented(p)
    ensures Seqs.Choose(Text.Split(Text.Join("\n\n", [p]), '\n'), IndentLine) == [p]
  {
    IndentLineFixed(p);
    Text.SplitNoSep(p, '\n');
    assert [p][1..] == [];
  }

  /** Every item is a paragraph. */
  predicate AllIndented(ps: seq<string>) {
    forall k :: 0 <= k < |ps| ==> Indented(ps[k])
  }

  /** Re-formatting indented paragraphs gives them back. */
  lemma {:induction false} ReformatParagraphs(ps: seq<string>)
    requires AllIndented(ps)
    ensures Seqs.Choose(Text.Split(Text.Join("\n\n", ps), '\n'), IndentLine) == ps
  {
    if |ps| == 1 {
      ReformatOne(ps[0]);
    } else if |ps| > 1 {
      assert ps == [ps[0]] + ps[1..];
      var p, rest := ps[0], Text.Join("\n\n", ps[1..]);
      assert Indented(p);
      IndentLineFixed(p);
      assert AllIndented(ps[1..]) by {
        assert forall k :: 0 <= k < |ps| - 1 ==> ps[1..][k] == ps[k + 1];
      }
      ReformatParagraphs(ps[1..]);
      assert Text.Join("\n\n", ps) == p + "\n\n" + rest;
      SplitParagraph(p, rest);
      BlankDropped();
      ChooseKeepDrop(p, "", Text.Split(rest, '\n'), IndentLine);
    }
  }

  /** Formatting a chapter's text twice is formatting it once. */
  lemma ChapterContentIdempotent(content: string)
    ensures ChapterContent(ChapterContent(content)) == ChapterContent(content)
  {
    var ps := Paragraphs(content);
    ParagraphsIndented(content);
    if ChapterContent(content) != "" {
      assert AllIndented(ps) by {
        assert forall k :: 0 <= k < |ps| ==> ps[k] in ps;
      }
      ReformatParagraphs(ps);
    }
  }

  // ------------------------------------------------------ the story package

  /** A chapter of the story package; a missing title is `None`, a missing
      summary or text is empty. */
  datatype Chapter = Chapter(title: Option<string>, summary: string, content: string)

  /** A character card; a missing name or role is `None`, a missing
      description field is empty. */
  datatype Card = Card(name: Option<string>, role: Option<string>,
                       description: string, appearance: string,
                       personality: string, background: string)

  /** The plot outline; `None` in the package stands for a missing or empty
      outline dictionary. */
  datatype Outline = Outline(premise: string, detailed: string, structure: string,
                             innovation: seq<string>)

  datatype Package = Package(description: string, premise: string, summary: string,
                             outline: Option<Outline>, characters: seq<Card>,
                             chapters: seq<Chapter>)

  const LineSeparator := "\n" + Text.Repeat("=", 60) + "\n"
  const ChapterSeparator := "\n" + Text.Repeat("-", 40) + "\n"

  // ---------------------------------------------------------- description

  /** Python's `max(xs, key=len, default='')` over the non-empty items: the
      first of the longest items, or "" when every item is empty. */
  function Longest(xs: seq<string>): (r: string)
    ensures forall k :: 0 <= k < |xs| ==> |xs[k]| <= |r|
    ensures r == "" <==> forall k :: 0 <= k < |xs| ==> xs[k] == ""
    ensures r != "" ==> exists i :: 0 <= i < |xs| && xs[i] == r && forall j :: 0 <= j < i ==> |xs[j]| < |r|
  {
    if |xs| == 0 then ""
    else
      var rest := Longest(xs[1..]);
      if |xs[0]| >= |rest| then
        assert forall k :: 1 <= k < |xs| ==> xs[k] == xs[1..][k - 1];
        xs[0]
      else
        assert forall k :: 1 <= k < |xs| ==> xs[k] == xs[1..][k - 1];
        assert rest != "" ==> exists i :: 1 <= i < |xs| && xs[i] == rest && forall j :: 0 <= j < i ==> |xs[j]| < |rest| by {
          if rest != "" {
            var i :| 0 <= i < |xs| - 1 && xs[1..][i] == rest && forall j :: 0 <= j < i ==> |xs[1..][j]| < |rest|;
            assert forall j :: 1 <= j < i + 1 ==> xs[j] == xs[1..][j - 1];
          }
        }
        rest
  }

  const OutlineCap := 300

  /** The candidate descriptions, in order: the package's description,
      premise and summary, then the outline's premise and its detailed
      outline cut to 300 characters with "..." appended. */
  function Candidates(pkg: Package): (cs: seq<string>)
    ensures |cs| == if pkg.outline.Some? then 5 else 3
    ensures pkg.outline.Some? ==> |cs[4]| <= OutlineCap + 3
  {
    [pkg.description, pkg.premise, pkg.summary]
    + match pkg.outline
      case None => []
      case Some(o) => [o.premise, if o.detailed != "" then Seqs.Take(o.detailed, OutlineCap) + Ellipsis else ""]
  }

  /** `_format_description_section`: the longest candidate as a wrapped
      paragraph under its heading, or nothing when every candidate is
      empty. */
  function DescriptionSection(pkg: Package): (r: Option<string>)
    ensures r.None? <==> forall k :: 0 <= k < |Candidates(pkg)| ==> Candidates(pkg)[k] == ""
    ensures r.Some? ==>
              var cs := Candidates(pkg);
              exists i :: 0 <= i < |cs|
                && r.value == "📖 内容简介\n\n" + FormatParagraph(cs[i], LineWidth)
                && (forall j :: 0 <= j < |cs| ==> |cs[j]| <= |cs[i]|)
                && (forall j :: 0 <= j < i ==> |cs[j]| < |cs[i]|)
  {
    var d := Longest(Candidates(pkg));
    if d == "" then None else Some("📖 内容简介\n\n" + FormatParagraph(d, LineWidth))
  }

  // ------------------------------------------------------------ characters

  /** The Chinese name of a role; an unknown role is shown as given. */
  function RoleName(role: Option<string>): string {
    match role
    case None => "未知角色"
    case Some(r) =>
      if r == "protagonist" then "主角"
      else if r == "antagonist" then "反派"
      else if r == "deuteragonist" then "重要配角"
      else if r == "supporting" then "配角"
      else if r == "minor" then "次要角色"
      else r
  }

  const InfoCap := 100
  const InfoShown := 3

  /** The card's non-empty fields in order, the last three labelled and
      truncated to 100 characters. */
  function Info(c: Card): (xs: seq<string>)
    ensures |xs| == (if c.description != "" then 1 else 0) + (if c.appearance != "" then 1 else 0)
                    + (if c.personality != "" then 1 else 0) + (if c.background != "" then 1 else 0)
  {
    (if c.description != "" then [c.description] else [])
    + (if c.appearance != "" then ["外貌：" + Truncate(c.appearance, InfoCap)] else [])
    + (if c.personality != "" then ["性格：" + Truncate(c.personality, InfoCap)] else [])
    + (if c.background != "" then ["背景：" + Truncate(c.background, InfoCap)] else [])
  }

  /** The lines of the `i`-th card. */
  function CardLines(i: nat, c: Card): seq<string> {
    var name := if c.name.Some? then c.name.value else "角色" + Text.NatToStr(i);
    [Text.NatToStr(i) + ". 【" + name + "】", "   角色定位：" + RoleName(c.role)]
    + Shown(c) + [""]
  }

  /** The first three fields of the card, indented. */
  function Shown(c: Card): (ls: seq<string>)
    ensures |ls| == |Seqs.Take(Info(c), InfoShown)|
    ensures forall k :: 0 <= k < |ls| ==> ls[k] == "   " + Info(c)[k]
  {
    seq(|Seqs.Take(Info(c), InfoShown)|, k requires 0 <= k < |Seqs.Take(Info(c), InfoShown)| => "   " + Info(c)[k])
  }

  /** The lines of the cards, numbered from `first`. */
  function CardRun(cards: seq<Card>, first: nat): seq<string> {
    if |cards| == 0 then [] else CardLines(first, cards[0]) + CardRun(cards[1..], first + 1)
  }

  /** `_format_characters_section`: nothing for an empty cast, otherwise
      the heading and one numbered block per card. */
  function CharactersSection(cards: seq<Card>): (r: Option<string>)
    ensures r.None? <==> cards == []
  {
    if cards == [] then None
    else Some(Text.Join("\n", ["👥 主要角色", ""] + CardRun(cards, 1)))
  }

  /** A card shows its name and role and at most three of its fields, so a
      card with all four fields loses its background. */
  lemma CardLayout(i: nat, c: Card)
    ensures |CardLines(i, c)| == 3 + (if |Info(c)| < InfoShown then |Info(c)| else InfoShown)
    ensures c.description != "" && c.appearance != "" && c.personality != "" && c.background != "" ==>
      CardLines(i, c)[2..5] == ["   " + c.description, "   外貌：" + Truncate(c.appearance, InfoCap),
                                "   性格：" + Truncate(c.personality, InfoCap)]
  {
    if c.description != "" && c.appearance != "" && c.personality != "" && c.background != "" {
      var info, ls := Info(c), CardLines(i, c);
      assert info[..3] == [c.description, "外貌：" + Truncate(c.appearance, InfoCap),
                           "性格：" + Truncate(c.personality, InfoCap)];
      assert ls[2..5] == Shown(c);
      assert "   " + ("外貌：" + Truncate(c.appearance, InfoCap)) == "   外貌：" + Truncate(c.appearance, InfoCap);
      assert "   " + ("性格：" + Truncate(c.personality, InfoCap)) == "   性格：" + Truncate(c.personality, InfoCap);
    }
  }

  /** Every labelled field is at most three label characters and 100
      characters of text. */
  lemma InfoBounded(c: Card)
    ensures forall k :: 0 <= k < |Info(c)| ==> Info(c)[k] == c.description || |Info(c)[k]| <= 3 + InfoCap
  {
    TruncateBounded(c.appearance, InfoCap);
    TruncateBounded(c.personality, InfoCap);
    TruncateBounded(c.background, InfoCap);
  }

  // --------------------------------------------------------------- outline

  /** The lines of the outline section. */
  function OutlineLines(o: Outline): seq<string> {
    ["📋 故事大纲", ""]
    + (if o.structure != "" then ["叙事结构：" + o.structure, ""] else [])
    + (if o.detailed != "" then ["情节概要：", FormatParagraph(o.detailed, LineWidth), ""] else [])
    + (if o.innovation != [] then ["创新元素：" + Text.Join(", ", o.innovation), ""] else [])
  }

  /** `_format_outline_section`: nothing without an outline. */
  function OutlineSection(outline: Option<Outline>): (r: Option<string>)
    ensures r.None? <==> outline.None?
  {
    match outline
    case None => None
    case Some(o) => Some(Text.Join("\n", OutlineLines(o)))
  }

  /** Each present part of the outline adds its lines, followed by a blank
      line; absent parts add nothing. */
  lemma OutlineLayout(o: Outline)
    ensures |OutlineLines(o)| == 2 + (if o.structure != "" then 2 else 0)
                                   + (if o.detailed != "" then 3 else 0)
                                   + (if o.innovation != [] then 2 else 0)
    ensures o.structure != "" ==> "叙事结构：" + o.structure in OutlineLines(o)
    ensures o.innovation != [] ==> "创新元素：" + Text.Join(", ", o.innovation) in OutlineLines(o)
  {
  }

  // ----------------------------------------------------------- main text

  const MainTitle := "📚 正文内容"
  const NoChapters := MainTitle + "\n\n暂无章节内容。"
  const NotWritten := "（本章内容暂未生成）"

  /** The heading of the `i`-th chapter; a missing title repeats "第i章". */
  function Heading(i: nat, ch: Chapter): (h: string)
    ensures |h| > 0 && h[0] == '第'
  {
    var number := "第" + Text.NatToStr(i) + "章";
    number + "  " + (if ch.title.Some? then ch.title.value else number)
  }

  /** The chapter's formatted text, or a placeholder when it has none. */
  function Body(ch: Chapter): string {
    if ch.content != "" then ChapterContent(ch.content) else NotWritten
  }

  /** The lines of the `i`-th of `n` chapters; all but the last end with the
      chapter separator. */
  function ChapterLines(i: nat, ch: Chapter, n: nat): seq<string> {
    [Heading(i, ch), ""]
    + (if ch.summary != "" then ["【本章概要】" + ch.summary, ""] else [])
    + [Body(ch), ""]
    + (if i < n then [ChapterSeparator] else [])
  }

  /** The lines of the chapters, numbered from `first`, of `n` in all. */
  function ChapterRun(chs: seq<Chapter>, first: nat, n: nat): seq<string> {
    if |chs| == 0 then [] else ChapterLines(first, chs[0], n) + ChapterRun(chs[1..], first + 1, n)
  }

  /** `_format_main_content`: a fixed notice without chapters, otherwise
      the heading and every chapter in order. */
  function MainContent(chs: seq<Chapter>): (r: string)
    ensures chs == [] ==> r == NoChapters
    ensures chs != [] ==> Text.IsPrefix(MainTitle + "\n\n", r)
    ensures forall k :: 0 <= k < |chs| ==>
              Text.Contains(r, Heading(k + 1, chs[k])) && Text.Contains(r, Body(chs[k]))
  {
    if chs == [] then NoChapters
    else
      MainContentHolds(chs);
      Text.Join("\n", MainLines(chs))
  }

  /** The lines of the main text when there are chapters. */
  function MainLines(chs: seq<Chapter>): seq<string> {
    [MainTitle, ""] + ChapterRun(chs, 1, |chs|)
  }

  /** The main text opens with its heading and a blank line, and holds the
      heading and the text of every chapter. */
  lemma MainContentHolds(chs: seq<Chapter>)
    requires chs != []
    ensures var r := Text.Join("\n", MainLines(chs));
            && Text.IsPrefix(MainTitle + "\n\n", r)
            && forall k :: 0 <= k < |chs| ==>
                 Text.Contains(r, Heading(k + 1, chs[k])) && Text.Contains(r, Body(chs[k]))
  {
    MainOpens(chs);
    forall k | 0 <= k < |chs|
      ensures Text.Contains(Text.Join("\n", MainLines(chs)), Heading(k + 1, chs[k]))
      ensures Text.Contains(Text.Join("\n", MainLines(chs)), Body(chs[k]))
    {
      ChapterShown(chs, k);
    }
  }

  lemma ChapterShown(chs: seq<Chapter>, k: nat)
    requires k < |chs|
    ensures Text.Contains(Text.Join("\n", MainLines(chs)), Heading(k + 1, chs[k]))
    ensures Text.Contains(Text.Join("\n", MainLines(chs)), Body(chs[k]))
  {
    ChapterRunHeadings(chs, 1, |chs|, k);
    RunLineShown(chs, Heading(k + 1, chs[k]));
    RunLineShown(chs, Body(chs[k]));
  }

  lemma MainOpens(chs: seq<Chapter>)
    requires chs != []
    ensures Text.IsPrefix(MainTitle + "\n\n", Text.Join("\n", MainLines(chs)))
  {
    var run := ChapterRun(chs, 1, |chs|);
    var ls := MainLines(chs);
    assert |run| > 0;
    Text.JoinCons("\n", MainTitle, [""] + run);
    Text.JoinCons("\n", "", run);
    assert [MainTitle] + ([""] + run) == ls;
    var r := Text.Join("\n", ls);
    assert r == MainTitle + "\n\n" + Text.Join("\n", run);
    assert r[..|MainTitle + "\n\n"|] == MainTitle + "\n\n";
  }

  /** A line of the chapter run appears in the main text. */
  lemma RunLineShown(chs: seq<Chapter>, x: string)
    requires x in ChapterRun(chs, 1, |chs|)
    ensures Text.Contains(Text.Join("\n", MainLines(chs)), x)
  {
    var run := ChapterRun(chs, 1, |chs|);
    var ls := MainLines(chs);
    var a :| 0 <= a < |run| && run[a] == x;
    assert ls[a + 2] == x;
    Text.JoinContains("\n", ls, a + 2);
  }

  /** Formatted chapter text is empty or starts with the indentation. */
  lemma ChapterContentStarts(content: string)
    ensures ChapterContent(content) == "" || Text.IsPrefix(Indent, ChapterContent(content))
  {
    var ps := Paragraphs(content);
    if ChapterContent(content) != "" {
      ParagraphsIndented(content);
      assert ps[0] in ps;
      if |ps| > 1 {
        assert Text.Join("\n\n", ps) == ps[0] + "\n\n" + Text.Join("\n\n", ps[1..]);
      }
    }
  }

  /** No line of a chapter other than its separator is the separator. */
  lemma ChapterLinesSeparators(i: nat, ch: Chapter, n: nat)
    ensures Seqs.Count(ChapterLines(i, ch, n), ChapterSeparator) == if i < n then 1 else 0
  {
    var head := [Heading(i, ch), ""];
    var summary := if ch.summary != "" then ["【本章概要】" + ch.summary, ""] else [];
    var body := [Body(ch), ""];
    var tail := if i < n then [ChapterSeparator] else [];
    assert ChapterSeparator[0] == '\n';
    assert Seqs.Count(head, ChapterSeparator) == 0 by {
      assert head[0][0] != ChapterSeparator[0];
    }
    assert Seqs.Count(summary, ChapterSeparator) == 0 by {
      if ch.summary != "" {
        assert summary[0][0] == '【';
      }
    }
    assert Seqs.Count(body, ChapterSeparator) == 0 by {
      if ch.content != "" {
        ChapterContentStarts(ch.content);
        if Body(ch) != "" {
          assert Body(ch)[0] == ' ';
        }
      } else {
        assert Body(ch)[0] == '（';
      }
    }
    Seqs.CountConcat(head, summary, ChapterSeparator);
    Seqs.CountConcat(head + summary, body, ChapterSeparator);
    Seqs.CountConcat(head + summary + body, tail, ChapterSeparator);
  }

  lemma {:induction false} ChapterRunSeparators(chs: seq<Chapter>, first: nat, n: nat)
    requires |chs| > 0 && first + |chs| == n + 1
    ensures Seqs.Count(ChapterRun(chs, first, n), ChapterSeparator) == |chs| - 1
  {
    ChapterLinesSeparators(first, chs[0], n);
    Seqs.CountConcat(ChapterLines(first, chs[0], n), ChapterRun(chs[1..], first + 1, n), ChapterSeparator);
    if |chs| > 1 {
      ChapterRunSeparators(chs[1..], first + 1, n);
    }
  }

  /** Consecutive chapters are set apart by exactly one separator each:
      `n` chapters carry `n - 1` separators. */
  lemma MainSeparators(chs: seq<Chapter>)
    requires chs != []
    ensures Seqs.Count(MainLines(chs), ChapterSeparator) == |chs| - 1
  {
    ChapterRunSeparators(chs, 1, |chs|);
    Seqs.CountConcat([MainTitle, ""], ChapterRun(chs, 1, |chs|), ChapterSeparator);
    assert MainTitle[0] != ChapterSeparator[0];
  }

  /** Every chapter appears in the run with its number, its title and its
      text (or the placeholder). */
  lemma {:induction false} ChapterRunHeadings(chs: seq<Chapter>, first: nat, n: nat, k: nat)
    requires k < |chs|
    ensures Heading(first + k, chs[k]) in ChapterRun(chs, first, n)
    ensures Body(chs[k]) in ChapterRun(chs, first, n)
  {
    if k > 0 {
      ChapterRunHeadings(chs[1..], first + 1, n, k - 1);
    }
  }

  // ------------------------------------------------------------ file name

  /** The characters `save_novel_as_txt` removes from a title. */
  const Unsafe: set<char> := {'<', '>', ':', '"', '/', '\\', '|', '?', '*'}

  /** The title with every unsafe character removed. */
  function SafeTitle(title: string): (r: string)
    ensures forall i :: 0 <= i < |r| ==> r[i] !in Unsafe && r[i] in title
  {
    Text.RemoveChars(title, Unsafe)
  }

  /** Every safe character of the title is kept, and a clean title is left
      as it is; so cleaning twice is cleaning once. */
  lemma {:induction false} SafeTitleKeeps(title: string)
    ensures forall i :: 0 <= i < |title| && title[i] !in Unsafe ==> title[i] in SafeTitle(title)
  {
    if |title| > 0 {
      SafeTitleKeeps(title[1..]);
      assert forall i :: 1 <= i < |title| ==> title[i] == title[1..][i - 1];
    }
  }

  lemma SafeTitleIdempotent(title: string)
    ensures SafeTitle(SafeTitle(title)) == SafeTitle(title)
    ensures (forall i :: 0 <= i < |title| ==> title[i] !in Unsafe) ==> SafeTitle(title) == title
  {
    Text.RemoveCharsNone(SafeTitle(title), Unsafe);
    if forall i :: 0 <= i < |title| ==> title[i] !in Unsafe {
      Text.RemoveCharsNone(title, Unsafe);
    }
  }

  /** The file name: the cleaned title, an underscore, the time stamp. */
  function FileName(title: string, stamp: string): (r: string)
    ensures Text.IsPrefix(SafeTitle(title) + "_", r) && Text.IsSuffix(".txt", r)
  {
    var r := SafeTitle(title) + "_" + stamp + ".txt";
    assert r[..|SafeTitle(title) + "_"|] == SafeTitle(title) + "_";
    r
  }

  // ------------------------------------------------------------ the novel

  function Opt(x: Option<string>): seq<string> {
    if x.Some? then [x.value] else []
  }

  /** The sections in order; the title page, the information and the main
      text are always present.  Each optional section that exists takes the
      next place after the information, in the order description,
      characters, outline; the main text follows them, and the technical
      information, when there is any, comes last. */
  function Parts(titleSection: string, infoSection: string, description: Option<string>,
                 characters: Option<string>, outline: Option<string>, main: string,
                 generation: Option<string>): (ps: seq<string>)
    ensures var d := Opt(description);
            var c := Opt(characters);
            var o := Opt(outline);
            && |ps| == 3 + |d| + |c| + |o| + |Opt(generation)|
            && (description.Some? ==> ps[2] == description.value)
            && (characters.Some? ==> ps[2 + |d|] == characters.value)
            && (outline.Some? ==> ps[2 + |d| + |c|] == outline.value)
            && ps[2 + |d| + |c| + |o|] == main
    ensures 3 <= |ps| <= 7
    ensures ps[0] == titleSection && ps[1] == infoSection
    ensures generation.None? ==> ps[|ps| - 1] == main
    ensures generation.Some? ==> ps[|ps| - 2] == main && ps[|ps| - 1] == generation.value
  {
    [titleSection, infoSection] + Opt(description) + Opt(characters) + Opt(outline) + [main] + Opt(generation)
  }

  /** `format_novel_content`: the sections joined by the line separator.
      The title page and the technical information are passed in.  The
      novel opens with the title page and the information, closes with the
      main text followed by the technical information when there is any,
      and holds every optional section that exists. */
  function NovelText(pkg: Package, titleSection: string, infoSection: string,
                     generation: Option<string>): (r: string)
    ensures Text.IsPrefix(titleSection + LineSeparator + infoSection, r)
    ensures generation.None? ==> Text.IsSuffix(LineSeparator + MainContent(pkg.chapters), r)
    ensures generation.Some? ==>
              Text.IsSuffix(LineSeparator + MainContent(pkg.chapters) + LineSeparator + generation.value, r)
    ensures DescriptionSection(pkg).Some? ==>
              Text.IsPrefix(titleSection + LineSeparator + infoSection + LineSeparator
                            + DescriptionSection(pkg).value, r)
    ensures CharactersSection(pkg.characters).Some? ==> Text.Contains(r, CharactersSection(pkg.characters).value)
    ensures OutlineSection(pkg.outline).Some? ==> Text.Contains(r, OutlineSection(pkg.outline).value)
  {
    var d := DescriptionSection(pkg);
    var c := CharactersSection(pkg.characters);
    var o := OutlineSection(pkg.outline);
    var main := MainContent(pkg.chapters);
    var ps := Parts(titleSection, infoSection, d, c, o, main, generation);
    JoinStarts(LineSeparator, ps);
    JoinEnds(LineSeparator, ps);
    NovelSections(titleSection, infoSection, d, c, o, main, generation);
    Text.Join(LineSeparator, ps)
  }

  /** The joined parts hold each optional section, the description right
      after the information, and the main text just before the technical
      information. */
  lemma NovelSections(titleSection: string, infoSection: string, description: Option<string>,
                      characters: Option<string>, outline: Option<string>, main: string,
                      generation: Option<string>)
    ensures var r := Text.Join(LineSeparator, Parts(titleSection, infoSection, description, characters,
                                                    outline, main, generation));
            && (generation.Some? ==> Text.IsSuffix(LineSeparator + main + LineSeparator + generation.value, r))
            && (description.Some? ==>
                  Text.IsPrefix(titleSection + LineSeparator + infoSection + LineSeparator + description.value, r))
            && (characters.Some? ==> Text.Contains(r, characters.value))
            && (outline.Some? ==> Text.Contains(r, outline.value))
  {
    var ps := Parts(titleSection, infoSection, description, characters, outline, main, generation);
    var d := Opt(description);
    var c := Opt(characters);
    if generation.Some? {
      JoinEndsTwo(LineSeparator, ps);
    }
    if description.Some? {
      JoinStartsThree(LineSeparator, ps);
    }
    if characters.Some? {
      Text.JoinContains(LineSeparator, ps, 2 + |d|);
    }
    if outline.Some? {
      Text.JoinContains(LineSeparator, ps, 2 + |d| + |c|);
    }
  }

  lemma JoinStarts(sep: string, xs: seq<string>)
    requires |xs| >= 2
    ensures Text.IsPrefix(xs[0] + sep + xs[1], Text.Join(sep, xs))
  {
    var rest := Text.Join(sep, xs[1..]);
    assert Text.Join(sep, xs) == xs[0] + sep + rest;
    if |xs| > 2 {
      assert rest == xs[1] + sep + Text.Join(sep, xs[2..]);
    }
  }

  lemma {:induction false} JoinEnds(sep: string, xs: seq<string>)
    requires |xs| >= 2
    ensures Text.IsSuffix(sep + xs[|xs| - 1], Text.Join(sep, xs))
  {
    var rest := Text.Join(sep, xs[1..]);
    assert Text.Join(sep, xs) == xs[0] + sep + rest;
    if |xs| > 2 {
      JoinEnds(sep, xs[1..]);
    }
  }

  lemma JoinStartsThree(sep: string, xs: seq<string>)
    requires |xs| >= 3
    ensures Text.IsPrefix(xs[0] + sep + xs[1] + sep + xs[2], Text.Join(sep, xs))
  {
    var rest := Text.Join(sep, xs[2..]);
    assert Text.Join(sep, xs[1..]) == xs[1] + sep + rest;
    assert Text.Join(sep, xs) == xs[0] + sep + (xs[1] + sep + rest);
    if |xs| > 3 {
      assert rest == xs[2] + sep + Text.Join(sep, xs[3..]);
    }
    assert xs[0] + sep + (xs[1] + sep + rest) == xs[0] + sep + xs[1] + sep + rest;
  }

  lemma {:induction false} JoinEndsTwo(sep: string, xs: seq<string>)
    requires |xs| >= 3
    ensures Text.IsSuffix(sep + xs[|xs| - 2] + sep + xs[|xs| - 1], Text.Join(sep, xs))
  {
    var rest := Text.Join(sep, xs[1..]);
    assert Text.Join(sep, xs) == xs[0] + sep + rest;
    if |xs| > 3 {
      JoinEndsTwo(sep, xs[1..]);
    } else {
      var tail := xs[1..];
      assert tail[1..] == [xs[2]];
      assert Text.Join(sep, tail[1..]) == xs[2];
      assert rest == xs[1] + sep + xs[2];
    }
  }
}
