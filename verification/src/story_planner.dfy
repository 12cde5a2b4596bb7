/** The outline planner (`StoryPlanner` and `StoryPlannerTool` in
    modules/plot/story_planner.py).

    An outline is a fixed set of plot points for the chosen structure, each
    naming the chapters it spans as a range string ("a-b" or "n"), and a
    chapter plan that, chapter by chapter, collects the plot points whose range
    holds the chapter and derives tension, pacing and mood from the chapter's
    position.  The basic story information is a fixed record: the language
    model's reply is requested and then ignored. */
module StoryPlanner {
  import opened Wrappers
  import Text
  import PyNum

  datatype PlotPoint = PlotPoint(
    id: string,
    name: string,
    description: string,
    chapterRange: string,
    importance: int,
    plotFunction: string,
    charactersInvolved: seq<string>,
    conflicts: seq<string>,
    outcomes: seq<string>)

  datatype Chapter = Chapter(
    number: int,
    title: string,
    summary: string,
    wordCountTarget: int,
    keyEvents: seq<string>,
    characterFocus: seq<string>,
    plotAdvancement: string,
    tensionLevel: int,
    pacing: string,
    mood: string)

  datatype Subplot = Subplot(name: string, description: string, characters: string, importance: string)

  datatype Outline = Outline(
    title: string,
    genre: string,
    theme: string,
    premise: string,
    structure: string,
    tone: string,
    protagonist: string,
    antagonist: string,
    centralConflict: string,
    stakes: string,
    plotPoints: seq<PlotPoint>,
    chapters: seq<Chapter>,
    beginning: string,
    middle: string,
    climax: string,
    resolution: string,
    subplots: seq<Subplot>,
    themes: seq<string>,
    symbols: seq<string>,
    motifs: seq<string>)

  const ThreeAct := "三幕式"
  const HeroJourney := "英雄之旅"

  // ---------------------------------------------------------------------
  // Chapter ranges

  /** The range string "a-b" the plot points write with an f-string. */
  function RangeStr(a: int, b: int): string {
    Text.IntToStr(a) + "-" + Text.IntToStr(b)
  }

  /** `_is_chapter_in_range`: "a-b" holds the chapters a..b, any other
      string is parsed as one chapter number, and a string that does not
      parse (including one with two or more dashes) holds nothing. */
  function IsChapterInRange(chapter: int, rangeStr: string): (b: bool)
    ensures b ==> Text.CountChar(rangeStr, '-') <= 1
    ensures '-' !in rangeStr ==> (b <==> Text.ParseInt(rangeStr) == Some(chapter))
    ensures Text.CountChar(rangeStr, '-') == 1 ==>
              && |Text.Split(rangeStr, '-')| == 2
              && (b <==> exists lo, hi ::
                           && Text.ParseInt(Text.Split(rangeStr, '-')[0]) == Some(lo)
                           && Text.ParseInt(Text.Split(rangeStr, '-')[1]) == Some(hi)
                           && lo <= chapter <= hi)
  {
    if '-' in rangeStr then
      var parts := Text.Split(rangeStr, '-');
      Text.SplitCount(rangeStr, '-');
      if |parts| != 2 then false
      else
        match (Text.ParseInt(parts[0]), Text.ParseInt(parts[1]))
        case (Some(lo), Some(hi)) => lo <= chapter <= hi
        case _ => false
    else Text.ParseInt(rangeStr) == Some(chapter)
  }

  /** A range written from two non-negative bounds holds exactly the
      chapters between them. */
  lemma RangeHolds(chapter: int, a: nat, b: nat)
    ensures IsChapterInRange(chapter, RangeStr(a, b)) <==> a <= chapter <= b
  {
    var sa, sb := Text.NatToStr(a), Text.NatToStr(b);
    NoDash(sa);
    NoDash(sb);
    Text.SplitAroundSep(sa, sb, '-');
    var s := RangeStr(a, b);
    assert s == sa + ['-'] + sb;
    assert s[|sa|] == '-';
    Text.ParseNatStr(a);
    Text.ParseNatStr(b);
    TwoPartRange(chapter, s, sa, sb, a, b);
  }

  /** A string that splits at its one dash into two numbers holds the
      chapters between them. */
  lemma TwoPartRange(chapter: int, s: string, p: string, q: string, lo: int, hi: int)
    requires '-' in s && Text.Split(s, '-') == [p, q]
    requires Text.ParseInt(p) == Some(lo) && Text.ParseInt(q) == Some(hi)
    ensures IsChapterInRange(chapter, s) <==> lo <= chapter <= hi
  {
  }

  /** A single non-negative chapter number holds exactly that chapter. */
  lemma SingleHolds(chapter: int, n: nat)
    ensures IsChapterInRange(chapter, Text.IntToStr(n)) <==> chapter == n
  {
    var s := Text.NatToStr(n);
    NoDash(s);
    Text.ParseNatStr(n);
  }

  /** A range whose upper bound is negative is written "a--b" and holds no
      chapter at all. */
  lemma NegativeUpperHoldsNothing(chapter: int, a: nat, b: int)
    requires b < 0
    ensures !IsChapterInRange(chapter, RangeStr(a, b))
  {
    var s := RangeStr(a, b);
    assert s[|Text.NatToStr(a)|] == '-';
    assert s[|Text.NatToStr(a)| + 1] == '-';
    TwoDashes(s, |Text.NatToStr(a)|, |Text.NatToStr(a)| + 1);
  }

  lemma NoDash(s: string)
    requires forall i :: 0 <= i < |s| ==> Text.IsAsciiDigit(s[i])
    ensures '-' !in s
  {
    assert forall i :: 0 <= i < |s| ==> s[i] != '-';
  }

  /** Two dashes at different positions make the count at least two. */
  lemma {:induction false} TwoDashes(s: string, i: nat, j: nat)
    requires i < j < |s| && s[i] == '-' && s[j] == '-'
    ensures Text.CountChar(s, '-') >= 2
  {
    if i > 0 {
      TwoDashes(s[1..], i - 1, j - 1);
    } else {
      OneDash(s[1..], j - 1);
    }
  }

  lemma {:induction false} OneDash(s: string, j: nat)
    requires j < |s| && s[j] == '-'
    ensures Text.CountChar(s, '-') >= 1
  {
    if j > 0 {
      OneDash(s[1..], j - 1);
    }
  }

  // ---------------------------------------------------------------------
  // Tension, pacing and mood

  /** `chapter / total_chapters`. */
  function Position(chapter: int, total: int): real
    requires total != 0
  {
    chapter as real / total as real
  }

  /** `_calculate_tension_level`: low in the first act, rising through the
      second, easing off in the third. */
  function TensionLevel(chapter: int, total: int): (r: Result<int>)
    ensures r.Raise? <==> total == 0
    ensures r.Raise? ==> r.exc == ZeroDivisionError
    ensures r.Ok? && Position(chapter, total) >= 0.0 ==> 3 <= r.value <= 9
    ensures r.Ok? && 0.0 <= Position(chapter, total) < 0.25 ==> r.value <= 5
    ensures r.Ok? && 0.25 <= Position(chapter, total) < 0.75 ==> 5 <= r.value
    ensures r.Ok? && Position(chapter, total) >= 0.75 ==> 6 <= r.value
  {
    if total == 0 then Raise(ZeroDivisionError)
    else
      var p := Position(chapter, total);
      if p < 0.25 then Ok(PyNum.Min(3 + PyNum.Trunc(p * 12.0), 5))
      else if p < 0.75 then Ok(PyNum.Min(5 + PyNum.Trunc((p - 0.25) * 16.0), 9))
      else Ok(PyNum.Max(9 - PyNum.Trunc((p - 0.75) * 12.0), 6))
  }

  /** Whether one of the plot points is a major event (importance 8 or more). */
  predicate HasMajorEvent(points: seq<PlotPoint>) {
    exists p :: p in points && p.importance >= 8
  }

  /** `_determine_pacing`: both non-major branches answer "medium", so the
      position matters only through the division it performs. */
  function Pacing(chapter: int, total: int, points: seq<PlotPoint>): (r: Result<string>)
    ensures r.Raise? <==> total == 0
    ensures r.Raise? ==> r.exc == ZeroDivisionError
    ensures r.Ok? ==> (r.value == "fast" <==> HasMajorEvent(points))
    ensures r.Ok? ==> r.value in {"fast", "medium"}
  {
    if total == 0 then Raise(ZeroDivisionError)
    else
      var p := Position(chapter, total);
      if exists q :: q in points && q.importance >= 8 then Ok("fast")
      else if p < 0.3 || p > 0.8 then Ok("medium")
      else Ok("medium")
  }

  const Tense := "紧张刺激"
  const Serious := "严肃专注"
  const Lively := "轻松活泼"
  const Calm := "平静祥和"

  /** `_determine_mood`: a mood per tension band. */
  function Mood(tension: int): (m: string)
    ensures m == Tense <==> tension >= 8
    ensures m == Serious <==> 6 <= tension < 8
    ensures m == Lively <==> 4 <= tension < 6
    ensures m == Calm <==> tension < 4
  {
    if tension >= 8 then Tense
    else if tension >= 6 then Serious
    else if tension >= 4 then Lively
    else Calm
  }

  // ---------------------------------------------------------------------
  // Plot points

  function Point(id: string, name: string, description: string, range: string, importance: int,
                 function_: string, characters: seq<string>, conflicts: seq<string>, outcomes: seq<string>): PlotPoint
  {
    PlotPoint(id, name, description, range, importance, function_, characters, conflicts, outcomes)
  }

  /** `_generate_three_act_points`: opening, inciting incident, midpoint,
      climax and resolution, placed by quarters of the book. */
  function ThreeActPoints(n: int): (r: seq<PlotPoint>)
    ensures |r| == 5
    ensures r[0].chapterRange == "1-2" && r[4].chapterRange == Text.IntToStr(n)
    ensures r[1].chapterRange == RangeStr(3, n / 4) && r[2].chapterRange == Text.IntToStr(n / 2)
    ensures r[3].chapterRange == RangeStr(n * 3 / 4, n - 1)
    ensures r[3].importance == 10 && r[4].importance == 7
    ensures r[3].name == "高潮" && r[4].name == "结局"
  {
    assert Text.IntToStr(1) == "1" && Text.IntToStr(2) == "2";
    [
      Point("opening", "开场", "介绍主角和日常世界", "1-2", 8, "世界构建", ["主角"], [], ["建立背景"]),
      Point("inciting_incident", "启动事件", "打破日常，开始冒险", RangeStr(3, n / 4), 9, "情节启动",
            ["主角"], ["初始冲突"], ["踏上旅程"]),
      Point("midpoint", "中点", "重大转折或启示", Text.IntToStr(n / 2), 8, "转折点",
            ["主角", "导师"], ["认知冲突"], ["角色成长"]),
      Point("climax", "高潮", "最终对决", RangeStr(n * 3 / 4, n - 1), 10, "最终冲突",
            ["主角", "反派"], ["核心冲突"], ["决定结局"]),
      Point("resolution", "结局", "新的平衡", Text.IntToStr(n), 7, "收尾", ["主角"], [], ["故事完结"])
    ]
  }

  /** `_generate_hero_journey_points`: seven stages; the per-stage count
      the source computes is never used. */
  function HeroJourneyPoints(n: int): (r: seq<PlotPoint>)
    ensures |r| == 7
    ensures r[3].chapterRange == RangeStr(7, n / 3)
    ensures r[4].chapterRange == RangeStr(n / 3 + 1, n * 2 / 3)
    ensures r[5].chapterRange == RangeStr(n * 2 / 3 + 1, n - 2)
    ensures r[6].chapterRange == RangeStr(n - 1, n)
    ensures r[5].importance == 10
    ensures r[5].name == "最大考验" && r[6].name == "归来"
  {
    [
      Point("ordinary_world", "日常世界", "主角的平凡生活", "1-2", 6, "建立基线", ["主角"], [], ["背景设定"]),
      Point("call_to_adventure", "冒险召唤", "收到冒险的邀请或挑战", "3-4", 8, "情节触发",
            ["主角", "信使"], ["选择冲突"], ["接受使命"]),
      Point("mentor", "导师出现", "遇到指导者", "5-6", 7, "能力获得", ["主角", "导师"], [], ["获得帮助"]),
      Point("threshold", "跨越门槛", "正式踏入冒险世界", RangeStr(7, n / 3), 8, "世界转换",
            ["主角"], ["适应冲突"], ["进入新世界"]),
      Point("trials", "试炼考验", "面临各种挑战", RangeStr(n / 3 + 1, n * 2 / 3), 9, "角色锻炼",
            ["主角", "盟友", "敌人"], ["成长冲突"], ["获得成长"]),
      Point("ordeal", "最大考验", "面临最大的恐惧和挑战", RangeStr(n * 2 / 3 + 1, n - 2), 10, "最终考验",
            ["主角", "反派"], ["生死冲突"], ["获得宝物"]),
      Point("return", "归来", "带着收获回到日常世界", RangeStr(n - 1, n), 7, "收尾整合",
            ["主角"], [], ["新的开始"])
    ]
  }

  /** `_generate_plot_points`: the hero's journey on request, the three-act
      points for "三幕式" and for every other structure name. */
  function PlotPoints(structure: string, n: int): (r: seq<PlotPoint>)
    ensures structure == HeroJourney ==> r == HeroJourneyPoints(n)
    ensures structure != HeroJourney ==> r == ThreeActPoints(n)
  {
    if structure == ThreeAct then ThreeActPoints(n)
    else if structure == HeroJourney then HeroJourneyPoints(n)
    else ThreeActPoints(n)
  }

  // ---------------------------------------------------------------------
  // Chapter plan

  /** The plot points whose range holds the chapter, in plot order. */
  function Relevant(points: seq<PlotPoint>, chapter: int): (r: seq<PlotPoint>)
    ensures |r| <= |points|
    ensures forall p :: p in r <==> p in points && IsChapterInRange(chapter, p.chapterRange)
  {
    if |points| == 0 then []
    else
      (if IsChapterInRange(chapter, points[0].chapterRange) then [points[0]] else [])
      + Relevant(points[1..], chapter)
  }

  function Names(points: seq<PlotPoint>): (r: seq<string>)
    ensures |r| == |points|
    ensures forall k :: 0 <= k < |points| ==> r[k] == points[k].name
  {
    seq(|points|, k requires 0 <= k < |points| => points[k].name)
  }

  /** Comparing `c / n` with a constant is comparing `c` with the
      constant times `n`, for a positive `n`. */
  lemma DivBelow(c: int, n: int, q: real)
    requires n > 0
    ensures c as real / n as real < q <==> (c as real) < q * n as real
  {
    var p := c as real / n as real;
    assert p * n as real == c as real;
    if p < q {
      MulStrict(p, q, n as real);
    } else {
      MulMono(q, p, n as real);
    }
  }

  lemma MulStrict(a: real, b: real, m: real)
    requires a < b && m > 0.0
    ensures a * m < b * m
  {
  }

  lemma MulMono(a: real, b: real, m: real)
    requires a <= b && m > 0.0
    ensures a * m <= b * m
  {
  }

  /** Where `chapter / total_chapters` falls for a chapter of the book:
      inside (0, 1], below a quarter exactly for the first quarter, at least
      three quarters exactly for the last quarter. */
  lemma PositionBands(c: int, n: int)
    requires 1 <= c <= n
    ensures 0.0 < Position(c, n) <= 1.0
    ensures Position(c, n) < 0.25 <==> 4 * c < n
    ensures Position(c, n) < 0.75 <==> 4 * c < 3 * n
  {
    DivBelow(c, n, 0.25);
    DivBelow(c, n, 0.75);
    DivBelow(c, n, 0.0);
    DivBelow(c, n, 1.0);
  }

  /** One chapter of `_generate_chapter_plan`. */
  function PlanChapter(points: seq<PlotPoint>, i: int, n: int): (c: Chapter)
    requires 1 <= i <= n
    ensures c.number == i
  {
    var rel := Relevant(points, i);
    var tension := TensionLevel(i, n).value;
    Chapter(
      i,
      "第" + Text.IntToStr(i) + "章",
      "第" + Text.IntToStr(i) + "章的主要内容",
      3000,
      Names(rel),
      ["主角"],
      "推进" + (if |rel| > 0 then rel[0].plotFunction else "故事发展"),
      tension,
      Pacing(i, n, rel).value,
      Mood(tension))
  }

  /** `_generate_chapter_plan`: chapters 1..n in order (none for n <= 0). */
  function ChapterPlan(points: seq<PlotPoint>, n: int): (r: seq<Chapter>)
    ensures |r| == if n > 0 then n else 0
    ensures forall k :: 0 <= k < |r| ==> r[k].number == k + 1
    ensures forall k :: 0 <= k < |r| ==> r[k] == PlanChapter(points, k + 1, n)
  {
    seq(if n > 0 then n else 0, k requires 0 <= k < (if n > 0 then n else 0) => PlanChapter(points, k + 1, n))
  }

  /** Every chapter of a plan has tension between 3 and 9, at most 5 (a
      calm or lively mood) in the first quarter of the book, at least 5 in
      the middle half, and at least 6 (a tense or serious mood) in the last
      quarter; its pacing is fast exactly when a major plot point covers it. */
  lemma PlanShape(points: seq<PlotPoint>, n: int, c: int)
    requires 1 <= c <= n
    ensures var ch := ChapterPlan(points, n)[c - 1];
      && ch.title == "第" + Text.IntToStr(c) + "章"
      && 3 <= ch.tensionLevel <= 9
      && ch.mood == Mood(ch.tensionLevel)
      && (4 * c < n ==> ch.tensionLevel <= 5 && ch.mood in {Lively, Calm})
      && (n <= 4 * c < 3 * n ==> ch.tensionLevel >= 5)
      && (4 * c >= 3 * n ==> ch.tensionLevel >= 6 && ch.mood in {Tense, Serious})
      && (ch.pacing == "fast" <==> exists p :: p in points && IsChapterInRange(c, p.chapterRange) && p.importance >= 8)
      && ch.pacing in {"fast", "medium"}
  {
    PositionBands(c, n);
    var rel := Relevant(points, c);
    assert HasMajorEvent(rel) <==> exists p :: p in points && IsChapterInRange(c, p.chapterRange) && p.importance >= 8;
  }

  /** A chapter's key events are the names of the plot points whose range
      holds it. */
  lemma KeyEventsOf(points: seq<PlotPoint>, n: int, c: int, x: string)
    requires 1 <= c <= n
    ensures x in ChapterPlan(points, n)[c - 1].keyEvents <==>
      exists p :: p in points && IsChapterInRange(c, p.chapterRange) && p.name == x
  {
    var rel := Relevant(points, c);
    var names := Names(rel);
    assert ChapterPlan(points, n)[c - 1].keyEvents == names;
    if x in names {
      var k :| 0 <= k < |names| && names[k] == x;
      assert rel[k] in rel;
    }
    if exists p :: p in rel && p.name == x {
      var p :| p in rel && p.name == x;
      var k :| 0 <= k < |rel| && rel[k] == p;
      assert names[k] == x;
    }
  }

  /** A chapter's key events name exactly the plot points whose range holds
      it: with distinct names, a plot point's name is listed for chapter c
      iff c lies in its range. */
  lemma KeyEventIffInRange(points: seq<PlotPoint>, n: int, j: nat, c: int)
    requires 1 <= c <= n && j < |points|
    requires forall a, b :: 0 <= a < b < |points| ==> points[a].name != points[b].name
    ensures points[j].name in ChapterPlan(points, n)[c - 1].keyEvents
      <==> IsChapterInRange(c, points[j].chapterRange)
  {
    var ch := ChapterPlan(points, n)[c - 1];
    KeyEventsOf(points, n, c, points[j].name);
    if points[j].name in ch.keyEvents {
      var p :| p in points && IsChapterInRange(c, p.chapterRange) && p.name == points[j].name;
      var a :| 0 <= a < |points| && points[a] == p;
      assert a == j;
    }
  }

  /** A plot point written with the range "lo-hi" is a key event of
      exactly the chapters lo..hi, when plot names are distinct. */
  lemma RangePointListed(points: seq<PlotPoint>, n: int, j: nat, c: int, lo: nat, hi: nat)
    requires 1 <= c <= n && j < |points|
    requires forall a, b :: 0 <= a < b < |points| ==> points[a].name != points[b].name
    requires points[j].chapterRange == RangeStr(lo, hi)
    ensures points[j].name in ChapterPlan(points, n)[c - 1].keyEvents <==> lo <= c <= hi
  {
    KeyEventIffInRange(points, n, j, c);
    RangeHolds(c, lo, hi);
  }

  lemma ThreeActNamesDistinct(n: int)
    ensures var ps := ThreeActPoints(n);
      forall a, b :: 0 <= a < b < |ps| ==> ps[a].name != ps[b].name
  {
  }

  lemma HeroJourneyNamesDistinct(n: int)
    ensures var ps := HeroJourneyPoints(n);
      forall a, b :: 0 <= a < b < |ps| ==> ps[a].name != ps[b].name
  {
  }

  /** In a three-act plan the climax ("高潮") is a key event of exactly the
      chapters from three quarters of the book to the one before last. */
  lemma ThreeActClimax(n: int, c: int)
    requires 1 <= c <= n
    ensures "高潮" in ChapterPlan(ThreeActPoints(n), n)[c - 1].keyEvents <==> n * 3 / 4 <= c <= n - 1
  {
    ThreeActNamesDistinct(n);
    RangePointListed(ThreeActPoints(n), n, 3, c, n * 3 / 4, n - 1);
  }

  /** In a three-act plan the resolution ("结局") is a key event of exactly
      the last chapter. */
  lemma ThreeActResolution(n: int, c: int)
    requires 1 <= c <= n
    ensures "结局" in ChapterPlan(ThreeActPoints(n), n)[c - 1].keyEvents <==> c == n
  {
    var ps := ThreeActPoints(n);
    ThreeActNamesDistinct(n);
    KeyEventIffInRange(ps, n, 4, c);
    SingleHolds(c, n);
  }

  /** In a hero's-journey plan the ordeal ("最大考验") is a key event of
      exactly the chapters after two thirds of the book up to the
      third-to-last. */
  lemma HeroJourneyOrdeal(n: int, c: int)
    requires 2 <= c <= n
    ensures "最大考验" in ChapterPlan(HeroJourneyPoints(n), n)[c - 1].keyEvents
      <==> n * 2 / 3 + 1 <= c <= n - 2
  {
    var ps := HeroJourneyPoints(n);
    var lo := n * 2 / 3 + 1;
    assert lo >= 1 && ps[5].name == "最大考验";
    HeroJourneyNamesDistinct(n);
    RangePointListed(ps, n, 5, c, lo, n - 2);
  }

  /** In a hero's-journey plan the return ("归来") is a key event of exactly
      the last two chapters. */
  lemma HeroJourneyReturn(n: int, c: int)
    requires 1 <= c <= n
    ensures "归来" in ChapterPlan(HeroJourneyPoints(n), n)[c - 1].keyEvents <==> n - 1 <= c
  {
    var ps := HeroJourneyPoints(n);
    HeroJourneyNamesDistinct(n);
    KeyEventIffInRange(ps, n, 6, c);
    RangeHolds(c, n - 1, n);
  }

  /** For a one-chapter hero's journey the ordeal's range is "1--1", which
      holds no chapter, so it never appears. */
  lemma HeroJourneyShortOrdealLost(c: int)
    ensures !IsChapterInRange(c, HeroJourneyPoints(1)[5].chapterRange)
  {
    NegativeUpperHoldsNothing(c, 1, -1);
  }

  /** When only the last plot point's range holds a chapter, that point is
      the only relevant one. */
  lemma {:induction false} RelevantOnlyLast(points: seq<PlotPoint>, c: int)
    requires |points| > 0
    requires forall j :: 0 <= j < |points| - 1 ==> !IsChapterInRange(c, points[j].chapterRange)
    requires IsChapterInRange(c, points[|points| - 1].chapterRange)
    ensures Relevant(points, c) == [points[|points| - 1]]
  {
    if |points| > 1 {
      RelevantOnlyLast(points[1..], c);
    }
  }

  /** The last chapter of any plan sits at position 1: tension 6 and a
      serious mood. */
  lemma LastChapterTension(points: seq<PlotPoint>, n: int)
    requires n >= 1
    ensures ChapterPlan(points, n)[n - 1].tensionLevel == 6
    ensures ChapterPlan(points, n)[n - 1].mood == Serious
  {
    assert Position(n, n) == 1.0;
    assert TensionLevel(n, n) == Ok(6);
  }

  /** The last chapter of a three-act plan of three or more chapters holds
      only the resolution, so its pacing is medium and it advances "收尾". */
  lemma ThreeActLastChapter(n: int)
    requires n >= 3
    ensures var ch := ChapterPlan(ThreeActPoints(n), n)[n - 1];
      ch.keyEvents == ["结局"] && ch.pacing == "medium" && ch.plotAdvancement == "推进收尾"
  {
    var ps := ThreeActPoints(n);
    FirstTwoRange();
    LastOnlyResolution(ps, n);
    OnlyPointChapter(ps, n, n);
  }

  /** A chapter covered by a single plot point lists just that point, is
      advanced by its function, and is fast exactly when it is major. */
  lemma OnlyPointChapter(points: seq<PlotPoint>, n: int, c: int)
    requires 1 <= c <= n && |Relevant(points, c)| == 1
    ensures var p := Relevant(points, c)[0];
      var ch := ChapterPlan(points, n)[c - 1];
      && ch.keyEvents == [p.name]
      && ch.plotAdvancement == "推进" + p.plotFunction
      && (ch.pacing == "medium" <==> p.importance < 8)
  {
    var rel := Relevant(points, c);
    assert rel == [rel[0]];
    assert Names(rel) == [rel[0].name];
    assert HasMajorEvent(rel) <==> rel[0].importance >= 8;
    assert ChapterPlan(points, n)[c - 1] == PlanChapter(points, c, n);
  }

  lemma FirstTwoRange()
    ensures RangeStr(1, 2) == "1-2"
  {
  }

  /** With the three-act ranges, the last chapter (of three or more) lies
      only in the resolution's range. */
  lemma LastOnlyResolution(ps: seq<PlotPoint>, n: int)
    requires n >= 3 && |ps| == 5
    requires ps[0].chapterRange == RangeStr(1, 2) && ps[1].chapterRange == RangeStr(3, n / 4)
    requires ps[2].chapterRange == Text.IntToStr(n / 2) && ps[3].chapterRange == RangeStr(n * 3 / 4, n - 1)
    requires ps[4].chapterRange == Text.IntToStr(n)
    ensures Relevant(ps, n) == [ps[4]]
  {
    forall j | 0 <= j < |ps| - 1
      ensures !IsChapterInRange(n, ps[j].chapterRange)
    {
      ThreeActRangeOutside(n, j, ps[j].chapterRange);
    }
    SingleHolds(n, n);
    RelevantOnlyLast(ps, n);
  }

  /** The j-th of the first four three-act ranges does not hold the last
      chapter. */
  lemma ThreeActRangeOutside(n: int, j: nat, r: string)
    requires n >= 3 && j < 4
    requires j == 0 ==> r == RangeStr(1, 2)
    requires j == 1 ==> r == RangeStr(3, n / 4)
    requires j == 2 ==> r == Text.IntToStr(n / 2)
    requires j == 3 ==> r == RangeStr(n * 3 / 4, n - 1)
    ensures !IsChapterInRange(n, r)
  {
    if j == 0 {
      OutsideRange(n, 1, 2);
    } else if j == 1 {
      assert 0 <= n / 4 < n;
      OutsideRange(n, 3, n / 4);
    } else if j == 2 {
      assert 0 <= n / 2 < n;
      OutsideSingle(n, n / 2);
    } else {
      assert 0 <= n * 3 / 4;
      OutsideRange(n, n * 3 / 4, n - 1);
    }
  }

  lemma OutsideRange(c: int, lo: nat, hi: nat)
    requires c > hi
    ensures !IsChapterInRange(c, RangeStr(lo, hi))
  {
    RangeHolds(c, lo, hi);
  }

  lemma OutsideSingle(c: int, m: nat)
    requires c != m
    ensures !IsChapterInRange(c, Text.IntToStr(m))
  {
    SingleHolds(c, m);
  }

  // ---------------------------------------------------------------------
  // Subplots, outline and tool

  /** `_generate_subplots`: growth and friendship always, a romance line
      when more than one character is supplied. */
  function Subplots(characterCount: nat): (r: seq<Subplot>)
    ensures |r| == if characterCount > 1 then 3 else 2
    ensures r[0].name == "成长线" && r[0].importance == "高"
    ensures r[1].name == "友谊线" && r[1].importance == "中"
    ensures |r| == 3 ==> r[2].name == "爱情线" && r[2].characters == "主角+爱情对象"
  {
    var base := [
      Subplot("成长线", "主角的个人成长历程", "主角", "高"),
      Subplot("友谊线", "与伙伴的友谊发展", "主角+伙伴", "中")
    ];
    if characterCount > 1 then base + [Subplot("爱情线", "浪漫关系的发展", "主角+爱情对象", "中")]
    else base
  }

  /** Python's `theme or default`: an absent or empty theme takes the default. */
  function ThemeOr(theme: Option<string>, default: string): (t: string)
    ensures theme.Some? && theme.value != "" ==> t == theme.value
    ensures theme.None? || theme.value == "" ==> t == default
  {
    if theme.Some? && theme.value != "" then theme.value else default
  }

  /** `create_story_outline` with the fixed basic story information. */
  function CreateOutline(title: string, genre: string, n: int, structure: string,
                         theme: Option<string>, characterCount: nat): (o: Outline)
    ensures o.title == title && o.genre == genre && o.structure == structure
    ensures o.theme == ThemeOr(theme, "成长与冒险")
    ensures o.premise == "在" + genre + "世界中，主角展开冒险旅程"
    ensures |o.plotPoints| == if structure == HeroJourney then 7 else 5
    ensures |o.chapters| == if n > 0 then n else 0
    ensures forall k :: 0 <= k < |o.chapters| ==> o.chapters[k].number == k + 1
    ensures |o.subplots| == if characterCount > 1 then 3 else 2
  {
    var points := PlotPoints(structure, n);
    Outline(
      title, genre, ThemeOr(theme, "成长与冒险"), "在" + genre + "世界中，主角展开冒险旅程",
      structure, "冒险刺激", "主角", "反派", "正义与邪恶的对抗", "世界的命运",
      points, ChapterPlan(points, n),
      "平凡世界被打破", "冒险与成长", "最终决战", "新的平衡",
      Subplots(characterCount),
      ["成长", "友谊", "正义"], ["剑", "光明", "希望"], ["旅程", "试炼", "觉醒"])
  }

  /** The tool's parameters; an absent entry is `None`.  Only the number of
      characters matters to the planner. */
  datatype PlannerParams = PlannerParams(
    title: Option<string>,
    genre: Option<string>,
    chapterCount: Option<int>,
    structure: Option<string>,
    theme: Option<string>,
    characterCount: nat)

  datatype GenerationInfo = GenerationInfo(title: string, genre: string, chapterCount: int, structure: string)

  datatype PlannerReply = PlannerReply(storyOutline: Outline, generationInfo: GenerationInfo)

  /** `StoryPlannerTool.execute`: defaults 无题, 玄幻, 20 chapters, 三幕式. */
  function Execute(p: PlannerParams): (r: PlannerReply)
    ensures r.generationInfo.title == p.title.GetOr("无题") == r.storyOutline.title
    ensures r.generationInfo.genre == p.genre.GetOr("玄幻") == r.storyOutline.genre
    ensures r.generationInfo.chapterCount == p.chapterCount.GetOr(20)
    ensures r.generationInfo.structure == p.structure.GetOr(ThreeAct) == r.storyOutline.structure
    ensures p.chapterCount.None? ==> |r.storyOutline.chapters| == 20
    ensures p.structure.None? ==> r.storyOutline.plotPoints == ThreeActPoints(p.chapterCount.GetOr(20))
  {
    var title := p.title.GetOr("无题");
    var genre := p.genre.GetOr("玄幻");
    var n := p.chapterCount.GetOr(20);
    var structure := p.structure.GetOr(ThreeAct);
    PlannerReply(
      CreateOutline(title, genre, n, structure, p.theme, p.characterCount),
      GenerationInfo(title, genre, n, structure))
  }
}
