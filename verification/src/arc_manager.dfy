/** Story arcs and their overlaps (`ArcManager` and `ArcManagerTool` in
    modules/plot/arc_manager.py).

    The main arc spreads the book's chapters over four stages by quarters;
    each subplot gets a fixed-shape stage layout staggered by its index and
    never clamped to the book.  The manager keeps its arcs in an
    insertion-ordered dictionary keyed by arc id, modelled as a sequence of
    arcs with distinct ids.  Two arcs intersect when they share a character
    and a chapter. */
module ArcManager {
  import opened Wrappers
  import opened Seqs
  import Text

  /** `chapter_distribution`: the chapters of each stage. */
  datatype Distribution = Distribution(setup: seq<int>, development: seq<int>, climax: seq<int>, resolution: seq<int>)

  /** An intersection report; Python builds `common_characters` from a set
      in unspecified order, so the model keeps it as a set. */
  datatype Intersection = Intersection(
    arc1: string,
    arc2: string,
    kind: string,
    commonCharacters: set<string>,
    commonChapters: seq<int>,
    description: string)

  datatype StoryArc = StoryArc(
    id: string,
    name: string,
    kind: string,
    priority: int,
    setup: string,
    development: string,
    climax: string,
    resolution: string,
    characters: seq<string>,
    conflicts: seq<string>,
    themes: seq<string>,
    distribution: Distribution,
    dependencies: seq<string>,
    intersections: seq<Intersection>)

  // ---------------------------------------------------------------------
  // Chapter distributions

  /** All chapters of a distribution, stage by stage. */
  function AllChapters(d: Distribution): seq<int> {
    d.setup + d.development + d.climax + d.resolution
  }

  /** `_distribute_main_arc_chapters`: setup up to the first quarter,
      development up to three quarters, climax up to the chapter before
      last, and the last chapter as resolution. */
  function MainDistribution(n: int): (d: Distribution)
    ensures d.resolution == [n]
    ensures Ascending(d.setup) && Ascending(d.development) && Ascending(d.climax)
  {
    var act1 := n / 4;
    var act2 := n * 3 / 4;
    Distribution(Range(1, act1 + 1), Range(act1 + 1, act2 + 1), Range(act2 + 1, n), [n])
  }

  /** For a book of at least one chapter the four main stages, read in
      order, are exactly the chapters 1..n: they partition the book and
      each is ascending. */
  lemma MainArcPartitionsBook(n: int)
    requires n >= 1
    ensures AllChapters(MainDistribution(n)) == Range(1, n + 1)
  {
    var act1 := n / 4;
    var act2 := n * 3 / 4;
    assert 1 <= act1 + 1 <= act2 + 1 <= n;
    RangeAppend(1, act1 + 1, act2 + 1);
    RangeAppend(1, act2 + 1, n);
    assert Range(n, n + 1) == [n];
    RangeAppend(1, n, n + 1);
  }

  /** `(subplot_index * 3) % 10`, the stagger of a subplot's setup. */
  function SetupStart(i: nat): int {
    3 + (i * 3) % 10
  }

  /** `total_chapters - 8 + subplot_index * 2`, the start of its climax. */
  function ClimaxStart(n: int, i: nat): int {
    n - 8 + i * 2
  }

  /** `_distribute_subplot_chapters`: a two-chapter setup staggered by the
      index, development from five chapters after the setup start up to the
      climax, a two-chapter climax near the end and a one-chapter
      resolution.  Nothing is clamped to the book. */
  function SubplotDistribution(n: int, i: nat): (d: Distribution)
    ensures d.setup == [SetupStart(i), SetupStart(i) + 1] && 3 <= SetupStart(i) <= 12
    ensures d.climax == [ClimaxStart(n, i), ClimaxStart(n, i) + 1]
    ensures d.resolution == [n - 2 + i]
    ensures |d.development| == 0 <==> ClimaxStart(n, i) <= SetupStart(i) + 5
    ensures forall x :: x in d.development <==> SetupStart(i) + 5 <= x < ClimaxStart(n, i)
    ensures Ascending(d.development)
  {
    var s := SetupStart(i);
    var c := ClimaxStart(n, i);
    Distribution([s, s + 1], Range(s + 5, c), [c, c + 1], [n - 2 + i])
  }

  /** A short book puts the first subplot's climax before chapter one and
      its setup after the last chapter. */
  lemma SubplotNotClamped()
    ensures SubplotDistribution(5, 0).climax == [-3, -2]
    ensures SubplotDistribution(2, 0).setup == [3, 4]
  {
  }

  // ---------------------------------------------------------------------
  // Arcs

  /** The outline fields the main arc reads; an absent key is `None`, and
      `chapterCount` is the length of the outline's chapter list. */
  datatype ArcOutline = ArcOutline(
    beginning: Option<string>,
    middle: Option<string>,
    climax: Option<string>,
    resolution: Option<string>,
    protagonist: Option<string>,
    antagonist: Option<string>,
    centralConflict: Option<string>,
    themes: Option<seq<string>>,
    chapterCount: nat)

  /** An empty outline dictionary. */
  const EmptyOutline := ArcOutline(None, None, None, None, None, None, None, None, 0)

  /** `create_main_arc`'s arc (storing it is `Store`). */
  function MainArc(o: ArcOutline): (a: StoryArc)
    ensures a.id == "main_arc" && a.priority == 10 && a.kind == "主线"
    ensures a.characters == [o.protagonist.GetOr(""), o.antagonist.GetOr("")]
    ensures a.distribution == MainDistribution(o.chapterCount)
    ensures a.dependencies == [] && a.intersections == []
  {
    StoryArc(
      "main_arc", "主线剧情", "主线", 10,
      o.beginning.GetOr(""), o.middle.GetOr(""), o.climax.GetOr(""), o.resolution.GetOr(""),
      [o.protagonist.GetOr(""), o.antagonist.GetOr("")],
      [o.centralConflict.GetOr("")],
      o.themes.GetOr([]),
      MainDistribution(o.chapterCount),
      [], [])
  }

  /** One subplot dictionary; an absent key is `None`. */
  datatype SubplotSpec = SubplotSpec(name: Option<string>, characters: Option<string>, importance: Option<string>)

  /** `_calculate_subplot_priority`: 高 8, 中 (and an absent importance) 6,
      低 4, anything else 6. */
  function Priority(importance: Option<string>): (r: int)
    ensures r in {4, 6, 8}
    ensures r == 8 <==> importance == Some("高")
    ensures r == 4 <==> importance == Some("低")
  {
    match importance.GetOr("中")
    case "高" => 8
    case "中" => 6
    case "低" => 4
    case _ => 6
  }

  /** "subplot_{k}". */
  function SubplotId(k: int): string {
    "subplot_" + Text.IntToStr(k)
  }

  /** The arc for the `i`-th subplot (counting from 0) of `create_subplot_arcs`. */
  function SubplotArc(spec: SubplotSpec, n: int, i: nat): (a: StoryArc)
    ensures a.id == SubplotId(i + 1) && a.kind == "支线"
    ensures a.name == spec.name.GetOr("支线" + Text.IntToStr(i + 1))
    ensures a.priority == Priority(spec.importance)
    ensures a.characters == Text.Split(spec.characters.GetOr(""), '+')
    ensures a.dependencies == if i == 0 then ["main_arc"] else [SubplotId(i)]
    ensures a.distribution == SubplotDistribution(n, i)
  {
    var nm := spec.name.GetOr("");
    StoryArc(
      SubplotId(i + 1),
      spec.name.GetOr("支线" + Text.IntToStr(i + 1)),
      "支线",
      Priority(spec.importance),
      nm + "的开始", nm + "的发展", nm + "的高潮", nm + "的结局",
      Text.Split(spec.characters.GetOr(""), '+'),
      [], [],
      SubplotDistribution(n, i),
      if i == 0 then ["main_arc"] else [SubplotId(i)],
      [])
  }

  /** `create_subplot_arcs`' list: one arc per subplot, in order. */
  function SubplotArcs(specs: seq<SubplotSpec>, n: int): (r: seq<StoryArc>)
    ensures |r| == |specs|
    ensures forall k :: 0 <= k < |r| ==> r[k] == SubplotArc(specs[k], n, k)
  {
    seq(|specs|, k requires 0 <= k < |specs| => SubplotArc(specs[k], n, k))
  }

  // ---------------------------------------------------------------------
  // The arc dictionary

  function Ids(arcs: seq<StoryArc>): (ids: seq<string>)
    ensures |ids| == |arcs|
    ensures forall k :: 0 <= k < |arcs| ==> ids[k] == arcs[k].id
  {
    seq(|arcs|, k requires 0 <= k < |arcs| => arcs[k].id)
  }

  /** The position of the arc with the given id, if any. */
  function IndexOfId(arcs: seq<StoryArc>, id: string): (k: int)
    ensures -1 <= k < |arcs|
    ensures k == -1 <==> id !in Ids(arcs)
    ensures k >= 0 ==> arcs[k].id == id
  {
    if |arcs| == 0 then -1
    else if arcs[|arcs| - 1].id == id then |arcs| - 1
    else
      var k := IndexOfId(arcs[..|arcs| - 1], id);
      assert Ids(arcs) == Ids(arcs[..|arcs| - 1]) + [arcs[|arcs| - 1].id];
      k
  }

  /** `self.arcs[arc.id] = arc`: an arc with the same id is replaced in
      place, otherwise the arc is appended; every other arc keeps its
      position. */
  function Store(arcs: seq<StoryArc>, a: StoryArc): (r: seq<StoryArc>)
    requires Distinct(Ids(arcs))
    ensures Ids(r) == if a.id in Ids(arcs) then Ids(arcs) else Ids(arcs) + [a.id]
    ensures Distinct(Ids(r))
    ensures a in r
    ensures forall k :: 0 <= k < |arcs| && arcs[k].id != a.id ==> r[k] == arcs[k]
    ensures forall k :: 0 <= k < |r| && r[k].id == a.id ==> r[k] == a
  {
    var k := IndexOfId(arcs, a.id);
    if k < 0 then
      var r := arcs + [a];
      assert Ids(r) == Ids(arcs) + [a.id];
      r
    else
      var r := arcs[k := a];
      assert Ids(r) == Ids(arcs);
      assert r[k] == a;
      r
  }

  /** Storing a list of arcs one after another. */
  function StoreAll(arcs: seq<StoryArc>, new_: seq<StoryArc>): (r: seq<StoryArc>)
    requires Distinct(Ids(arcs))
    ensures Distinct(Ids(r))
    decreases |new_|
  {
    if |new_| == 0 then arcs else StoreAll(Store(arcs, new_[0]), new_[1..])
  }

  /** After storing arcs with distinct ids, every one of them is present. */
  lemma {:induction false} StoreAllContains(arcs: seq<StoryArc>, new_: seq<StoryArc>)
    requires Distinct(Ids(arcs)) && Distinct(Ids(new_))
    ensures forall b :: b in new_ ==> b in StoreAll(arcs, new_)
    decreases |new_|
  {
    if |new_| > 0 {
      var s := Store(arcs, new_[0]);
      var tail := new_[1..];
      assert Distinct(Ids(tail)) by {
        forall i, j | 0 <= i < j < |tail| ensures Ids(tail)[i] != Ids(tail)[j] {
          assert Ids(new_)[i + 1] != Ids(new_)[j + 1];
        }
      }
      StoreAllContains(s, tail);
      forall k | 0 <= k < |tail| ensures tail[k].id != new_[0].id {
        assert Ids(new_)[0] != Ids(new_)[k + 1];
      }
      StoreAllKeeps(s, tail, new_[0]);
    }
  }

  /** An arc whose id no later arc reuses survives later stores. */
  lemma {:induction false} StoreAllKeeps(arcs: seq<StoryArc>, new_: seq<StoryArc>, b: StoryArc)
    requires Distinct(Ids(arcs)) && b in arcs
    requires forall k :: 0 <= k < |new_| ==> new_[k].id != b.id
    ensures b in StoreAll(arcs, new_)
    decreases |new_|
  {
    if |new_| > 0 {
      var s := Store(arcs, new_[0]);
      var k :| 0 <= k < |arcs| && arcs[k] == b;
      assert s[k] == b;
      StoreAllKeeps(s, new_[1..], b);
    }
  }

  /** `create_main_arc`: the main arc is stored under "main_arc". */
  function CreateMainArc(arcs: seq<StoryArc>, o: ArcOutline): (r: (StoryArc, seq<StoryArc>))
    requires Distinct(Ids(arcs))
    ensures r.0 == MainArc(o) && r.0 in r.1
    ensures Distinct(Ids(r.1))
    ensures forall b :: b in arcs && b.id != "main_arc" ==> b in r.1
  {
    var a := MainArc(o);
    (a, Store(arcs, a))
  }

  /** Distinct subplot indices give distinct ids. */
  lemma SubplotIdsDistinct(j: nat, k: nat)
    requires j != k
    ensures SubplotId(j) != SubplotId(k)
  {
    Text.ParseIntToStr(j);
    Text.ParseIntToStr(k);
    assert SubplotId(j)[8..] == Text.IntToStr(j);
    assert SubplotId(k)[8..] == Text.IntToStr(k);
  }

  /** The subplot arcs of one call carry distinct ids. */
  lemma SubplotListIdsDistinct(specs: seq<SubplotSpec>, n: int)
    ensures Distinct(Ids(SubplotArcs(specs, n)))
  {
    var list := SubplotArcs(specs, n);
    assert forall j :: 0 <= j < |list| ==> Ids(list)[j] == SubplotId(j + 1);
    forall j, k | 0 <= j < k < |list| ensures Ids(list)[j] != Ids(list)[k] {
      SubplotIdsDistinct(j + 1, k + 1);
    }
  }

  /** `create_subplot_arcs`: the list of subplot arcs, every one of which
      is then found in the dictionary. */
  function CreateSubplotArcs(arcs: seq<StoryArc>, specs: seq<SubplotSpec>, n: int): (r: (seq<StoryArc>, seq<StoryArc>))
    requires Distinct(Ids(arcs))
    ensures r.0 == SubplotArcs(specs, n)
    ensures Distinct(Ids(r.1))
    ensures forall b :: b in r.0 ==> b in r.1
  {
    var list := SubplotArcs(specs, n);
    SubplotListIdsDistinct(specs, n);
    StoreAllContains(arcs, list);
    (list, StoreAll(arcs, list))
  }

  // ---------------------------------------------------------------------
  // Intersections

  /** The set of chapters an arc touches. */
  function ChapterSet(a: StoryArc): set<int> {
    set x | x in AllChapters(a.distribution)
  }

  /** `[x for x in xs if x in s]`. */
  function KeepIn(xs: seq<int>, s: set<int>): (r: seq<int>)
    requires Ascending(xs)
    ensures Ascending(r)
    ensures forall x :: x in r <==> x in xs && x in s
  {
    if |xs| == 0 then []
    else
      var rest := KeepIn(xs[1..], s);
      assert forall x :: x in rest ==> xs[0] < x by {
        forall x | x in rest ensures xs[0] < x {
          var k :| 1 <= k < |xs| && xs[k] == x;
        }
      }
      if xs[0] in s then
        var r := [xs[0]] + rest;
        assert Ascending(r) by {
          forall i, j | 0 <= i < j < |r| ensures r[i] < r[j] {
            if i == 0 {
              assert r[j] == rest[j - 1] && rest[j - 1] in rest;
            }
          }
        }
        r
      else rest
  }

  function SeqMin(xs: seq<int>): (m: int)
    requires |xs| > 0
    ensures m in xs && forall x :: x in xs ==> m <= x
  {
    if |xs| == 1 then xs[0]
    else
      var m := SeqMin(xs[1..]);
      assert forall x :: x in xs ==> x == xs[0] || x in xs[1..];
      if xs[0] <= m then xs[0] else m
  }

  function SeqMax(xs: seq<int>): (m: int)
    requires |xs| > 0
    ensures m in xs && forall x :: x in xs ==> x <= m
  {
    if |xs| == 1 then xs[0]
    else
      var m := SeqMax(xs[1..]);
      assert forall x :: x in xs ==> x == xs[0] || x in xs[1..];
      if xs[0] >= m then xs[0] else m
  }

  /** `sorted(s)` for a set of chapters drawn from `xs`. */
  function SortedWithin(xs: seq<int>, s: set<int>): (r: seq<int>)
    requires forall x :: x in s ==> x in xs
    ensures Ascending(r)
    ensures forall x :: x in r <==> x in s
  {
    if |xs| == 0 then []
    else KeepIn(Range(SeqMin(xs), SeqMax(xs) + 1), s)
  }

  /** The set of an arc's characters. */
  function CharacterSet(a: StoryArc): set<string> {
    set c | c in a.characters
  }

  /** The report for two arcs with the given common characters and
      chapters: the chapters ascending, the description naming the first. */
  function Report(a1: StoryArc, a2: StoryArc, chars: set<string>, common: set<int>): (x: Intersection)
    requires common != {} && common <= ChapterSet(a1)
    ensures x.arc1 == a1.id && x.arc2 == a2.id && x.kind == "角色交叉" && x.commonCharacters == chars
    ensures Ascending(x.commonChapters)
    ensures forall y :: y in x.commonChapters <==> y in common
    ensures |x.commonChapters| > 0
    ensures x.description == a1.name + "和" + a2.name + "在第" + Text.IntToStr(x.commonChapters[0]) + "章开始交叉"
  {
    var sorted := SortedWithin(AllChapters(a1.distribution), common);
    var y :| y in common;
    assert y in sorted;
    Intersection(a1.id, a2.id, "角色交叉", chars, sorted,
      a1.name + "和" + a2.name + "在第" + Text.IntToStr(sorted[0]) + "章开始交叉")
  }

  /** `_find_arc_intersection`: a report exactly when the arcs share a
      character and a chapter. */
  function FindIntersection(a1: StoryArc, a2: StoryArc): (r: Option<Intersection>)
    ensures r.Some? <==> CharacterSet(a1) * CharacterSet(a2) != {} && ChapterSet(a1) * ChapterSet(a2) != {}
    ensures r.Some? ==> r.value == Report(a1, a2, CharacterSet(a1) * CharacterSet(a2), ChapterSet(a1) * ChapterSet(a2))
  {
    var chars := CharacterSet(a1) * CharacterSet(a2);
    var common := ChapterSet(a1) * ChapterSet(a2);
    if chars != {} && common != {} then Some(Report(a1, a2, chars, common)) else None
  }

  /** Two arcs are reported exactly when some character is in both and some
      chapter is in both; the report lists exactly the shared characters
      and, ascending, exactly the shared chapters. */
  lemma IntersectionIff(a1: StoryArc, a2: StoryArc)
    ensures FindIntersection(a1, a2).Some? <==>
      (exists c :: c in a1.characters && c in a2.characters)
      && (exists x :: x in AllChapters(a1.distribution) && x in AllChapters(a2.distribution))
    ensures var r := FindIntersection(a1, a2);
      r.Some? ==>
        && r.value.arc1 == a1.id && r.value.arc2 == a2.id
        && (forall c :: c in r.value.commonCharacters <==> c in a1.characters && c in a2.characters)
        && Ascending(r.value.commonChapters)
        && (forall x :: x in r.value.commonChapters <==>
              x in AllChapters(a1.distribution) && x in AllChapters(a2.distribution))
  {
    if exists c :: c in a1.characters && c in a2.characters {
      var c :| c in a1.characters && c in a2.characters;
      assert c in CharacterSet(a1) * CharacterSet(a2);
    }
    if exists x :: x in AllChapters(a1.distribution) && x in AllChapters(a2.distribution) {
      var x :| x in AllChapters(a1.distribution) && x in AllChapters(a2.distribution);
      assert x in ChapterSet(a1) * ChapterSet(a2);
    }
  }

  /** The first common chapter of a report is the smallest. */
  lemma IntersectionStartsAtMin(a1: StoryArc, a2: StoryArc)
    requires FindIntersection(a1, a2).Some?
    ensures var cs := FindIntersection(a1, a2).value.commonChapters;
      forall x :: x in cs ==> cs[0] <= x
  {
    var cs := FindIntersection(a1, a2).value.commonChapters;
    forall x | x in cs ensures cs[0] <= x {
      var k :| 0 <= k < |cs| && cs[k] == x;
    }
  }

  /** `analyze_arc_intersections`: every arc against every later arc, in
      dictionary order. */
  function AllHits(arcs: seq<StoryArc>): (r: seq<Intersection>)
  {
    AllPairs(arcs, FindIntersection)
  }

  /** A report is produced for exactly the pairs i < j of arcs that
      intersect. */
  lemma AllHitsPairs(arcs: seq<StoryArc>, x: Intersection)
    ensures x in AllHits(arcs) <==>
      exists i, j :: 0 <= i < j < |arcs| && FindIntersection(arcs[i], arcs[j]) == Some(x)
  {
    AllPairsMembers(arcs, FindIntersection, x);
  }

  /** Within one row every report names the row's arc first and a later
      arc second; with distinct ids the row has no repeats. */
  lemma {:induction false} RowHitsDistinct(a: StoryArc, later: seq<StoryArc>)
    requires Distinct(Ids(later))
    ensures Distinct(RowPairs(a, later, FindIntersection))
    ensures forall x :: x in RowPairs(a, later, FindIntersection) ==> x.arc1 == a.id && x.arc2 in Ids(later)
  {
    if |later| > 0 {
      var tail := later[1..];
      assert Distinct(Ids(tail)) by {
        forall i, j | 0 <= i < j < |tail| ensures Ids(tail)[i] != Ids(tail)[j] {
          assert Ids(later)[i + 1] != Ids(later)[j + 1];
        }
      }
      RowHitsDistinct(a, tail);
      var rest := RowPairs(a, tail, FindIntersection);
      forall x | x in rest ensures x.arc2 in Ids(later) && x.arc2 != later[0].id {
        var k :| 0 <= k < |tail| && tail[k].id == x.arc2;
        assert Ids(later)[0] != Ids(later)[k + 1];
      }
    }
  }

  /** With distinct arc ids no report appears twice: together with
      `AllHitsPairs`, each intersecting pair is reported exactly once. */
  lemma {:induction false} AllHitsDistinct(arcs: seq<StoryArc>)
    requires Distinct(Ids(arcs))
    ensures Distinct(AllHits(arcs))
    ensures forall x :: x in AllHits(arcs) ==> x.arc1 in Ids(arcs)
  {
    if |arcs| > 0 {
      var tail := arcs[1..];
      assert Distinct(Ids(tail)) by {
        forall i, j | 0 <= i < j < |tail| ensures Ids(tail)[i] != Ids(tail)[j] {
          assert Ids(arcs)[i + 1] != Ids(arcs)[j + 1];
        }
      }
      RowHitsDistinct(arcs[0], tail);
      AllHitsDistinct(tail);
      var row := RowPairs(arcs[0], tail, FindIntersection);
      var rest := AllHits(tail);
      forall x | x in rest ensures x.arc1 != arcs[0].id && x.arc1 in Ids(arcs) {
        var k :| 0 <= k < |tail| && tail[k].id == x.arc1;
        assert Ids(arcs)[0] != Ids(arcs)[k + 1];
      }
      DistinctConcat(row, rest);
    }
  }

  // ---------------------------------------------------------------------
  // Tool

  /** The tool's parameters; an absent key is `None`. */
  datatype ArcParams = ArcParams(
    action: Option<string>,
    storyOutline: Option<ArcOutline>,
    subplots: Option<seq<SubplotSpec>>,
    totalChapters: Option<int>)

  datatype ArcReply =
    | MainArcReply(mainArc: StoryArc)
    | SubplotReply(subplotArcs: seq<StoryArc>)
    | AnalyzeReply(arcs: seq<StoryArc>, intersections: seq<Intersection>)
    | ErrorReply(error: string)

  /** `ArcManagerTool.execute` on the manager's arcs. */
  function Execute(arcs: seq<StoryArc>, p: ArcParams): (r: (ArcReply, seq<StoryArc>))
    requires Distinct(Ids(arcs))
    ensures Distinct(Ids(r.1))
    ensures p.action == Some("create_main") ==>
      r.0 == MainArcReply(MainArc(p.storyOutline.GetOr(EmptyOutline))) && r.0.mainArc in r.1
    ensures p.action == Some("create_subplots") ==>
      r.0 == SubplotReply(SubplotArcs(p.subplots.GetOr([]), p.totalChapters.GetOr(20)))
    ensures p.action == Some("analyze") ==> r == (AnalyzeReply(arcs, AllHits(arcs)), arcs)
    ensures p.action !in {Some("create_main"), Some("create_subplots"), Some("analyze")} ==>
      r == (ErrorReply("不支持的操作类型"), arcs)
  {
    match p.action
    case Some("create_main") =>
      var (a, s) := CreateMainArc(arcs, p.storyOutline.GetOr(EmptyOutline));
      (MainArcReply(a), s)
    case Some("create_subplots") =>
      var (l, s) := CreateSubplotArcs(arcs, p.subplots.GetOr([]), p.totalChapters.GetOr(20));
      (SubplotReply(l), s)
    case Some("analyze") => (AnalyzeReply(arcs, AllHits(arcs)), arcs)
    case _ => (ErrorReply("不支持的操作类型"), arcs)
  }
}
