/** The selection helpers of `EnhancedStoryGenerator`
    (modules/generation/enhanced_story_generator.py): innovation factors,
    plot twists, name cleaning and unique composite names, technique
    application, story-config derivation and the tool's action gate. */
module EnhancedStoryGenerator {
  import opened Wrappers
  import opened Seqs
  import opened PyNum
  import Text
  import DE = DiversityEnhancer

  /** A narrative technique with its implementation list. */
  datatype Technique = Technique(name: string, implementations: seq<string>)

  const Techniques: seq<Technique> := [
    Technique("非线性叙述", ["倒叙开场", "交叉剪辑", "时间跳跃", "记忆碎片"]),
    Technique("多重视角", ["角色轮换", "观点冲突", "信息互补", "真相拼图"]),
    Technique("元叙事", ["书中书", "戏中戏", "角色自省", "作者介入"]),
    Technique("意识流", ["内心独白", "联想跳跃", "感觉描写", "潜意识表达"]),
    Technique("寓言化", ["象征符号", "隐喻结构", "寓意情节", "哲理对话"])
  ]

  const TechniqueNames: seq<string> := ["非线性叙述", "多重视角", "元叙事", "意识流", "寓言化"]

  /** The four character-innovation categories' items, in category order. */
  const CharacterInnovations: seq<seq<string>> := [
    ["双重人格", "失忆者", "预言者", "时间旅行者", "灵魂互换", "虚拟存在", "概念化身", "命运编织者"],
    ["情感操控", "概率改写", "记忆编辑", "时间暂停", "维度穿越", "因果逆转", "真实扭曲", "意识分离"],
    ["逆向成长", "循环重置", "分身发展", "融合进化", "维度提升", "概念超越", "存在升华", "意识觉醒"],
    ["敌友转换", "师徒颠倒", "时空错位", "身份互换", "记忆共享", "命运绑定", "灵魂共鸣", "意识融合"]
  ]

  /** The four world-innovation categories' items, in category order. */
  const WorldInnovations: seq<seq<string>> := [
    ["重力可控", "时间流速不同", "空间折叠", "维度重叠", "意识物质化", "情感能量", "记忆具象", "梦境现实"],
    ["记忆等级制", "情感货币", "思想共享", "意识民主", "能力分工", "时间分配", "空间所有权", "虚拟身份"],
    ["思维文明", "能量文明", "信息文明", "维度文明", "概念文明", "意识文明", "时间文明", "因果文明"],
    ["思想战争", "记忆争夺", "时间竞赛", "维度侵袭", "概念污染", "意识病毒", "因果破坏", "现实扭曲"]
  ]

  /** A plot-twist type with its variations, timings and impacts. */
  datatype TwistKind = TwistKind(name: string, types: seq<string>, timing: seq<string>, impact: seq<string>)

  const PlotTwists: seq<TwistKind> := [
    TwistKind("身份揭秘", ["真实身份", "隐藏关系", "伪装暴露", "血缘之谜"], ["开篇", "中段", "高潮", "结尾"], ["震惊", "恍然", "愤怒", "感动"]),
    TwistKind("真相反转", ["善恶颠倒", "动机误判", "事实错觉", "记忆造假"], ["铺垫后", "冲突中", "揭示时", "回顾时"], ["困惑", "醒悟", "重新审视", "价值重塑"]),
    TwistKind("时空扭曲", ["时间循环", "平行世界", "梦境现实", "虚拟真实"], ["关键节点", "转折处", "高潮时", "收尾前"], ["颠覆认知", "重新定位", "存在质疑", "哲学思考"]),
    TwistKind("能力觉醒", ["潜能爆发", "血脉觉醒", "器物认主", "天赋显现"], ["绝境时", "感悟后", "传承中", "突破后"], ["力量提升", "自信增强", "责任加重", "使命明确"])
  ]

  /** The outcomes of the `random.sample` calls of `_select_innovation_factors`. */
  datatype InnovationDraws = InnovationDraws(
    techniques: seq<nat>,
    characterPicks: seq<nat>,
    characterSample: seq<nat>,
    worldPicks: seq<nat>,
    worldSample: seq<nat>,
    final: seq<nat>)

  /** Some item of some group. */
  predicate InGroups(x: string, groups: seq<seq<string>>) {
    exists i :: 0 <= i < |groups| && x in groups[i]
  }

  /** Every one-per-group pick is an item of some group. */
  lemma OneEachInGroups(groups: seq<seq<string>>, picks: seq<nat>, x: string)
    requires forall i :: 0 <= i < |groups| ==> |groups[i]| > 0
    requires x in OneEach(groups, picks)
    ensures InGroups(x, groups)
  {
    var each := OneEach(groups, picks);
    var j :| 0 <= j < |each| && each[j] == x;
    assert x in groups[j];
  }

  /** Two of the one-per-group picks: each is an item of some group. */
  function TwoOfEach(groups: seq<seq<string>>, picks: seq<nat>, sample: seq<nat>): (r: seq<string>)
    requires |groups| >= 2 && NonEmptyGroups(groups)
    ensures |r| == 2 && forall x :: x in r ==> InGroups(x, groups)
  {
    var r := TwoOf(OneEach(groups, picks), sample);
    forall x | x in r ensures InGroups(x, groups) {
      OneEachInGroups(groups, picks, x);
    }
    r
  }

  /** Groups that each have an item. */
  predicate NonEmptyGroups(groups: seq<seq<string>>) {
    forall i :: 0 <= i < |groups| ==> |groups[i]| > 0
  }

  /** `random.sample(xs, 2)`. */
  function TwoOf(xs: seq<string>, draws: seq<nat>): (r: seq<string>)
    requires |xs| >= 2
    ensures |r| == 2 && forall x :: x in r ==> x in xs
  {
    Sample(xs, 2, draws).value
  }

  /** The pool of six candidates drawn from the given catalogues: two
      technique names, two of the one-per-category character innovations,
      two of the one-per-category world innovations, in that order. */
  function PoolFrom(names: seq<string>, chars: seq<seq<string>>, worlds: seq<seq<string>>, d: InnovationDraws): (pool: seq<string>)
    requires |names| >= 2 && |chars| >= 2 && |worlds| >= 2
    requires NonEmptyGroups(chars) && NonEmptyGroups(worlds)
    ensures |pool| == 6
    ensures forall i :: 0 <= i < 2 ==> pool[i] in names
    ensures forall i :: 2 <= i < 4 ==> InGroups(pool[i], chars)
    ensures forall i :: 4 <= i < 6 ==> InGroups(pool[i], worlds)
  {
    var t2 := TwoOf(names, d.techniques);
    var c2 := TwoOfEach(chars, d.characterPicks, d.characterSample);
    var w2 := TwoOfEach(worlds, d.worldPicks, d.worldSample);
    assert t2[0] in t2 && t2[1] in t2;
    assert c2[0] in c2 && c2[1] in c2 && w2[0] in w2 && w2[1] in w2;
    t2 + c2 + w2
  }

  /** The pool `_select_innovation_factors` samples from. */
  function InnovationPool(d: InnovationDraws): (pool: seq<string>)
    ensures |pool| == 6
    ensures forall i :: 0 <= i < 2 ==> pool[i] in TechniqueNames
    ensures forall i :: 2 <= i < 4 ==> InGroups(pool[i], CharacterInnovations)
    ensures forall i :: 4 <= i < 6 ==> InGroups(pool[i], WorldInnovations)
  {
    PoolFrom(TechniqueNames, CharacterInnovations, WorldInnovations, d)
  }

  /** No item belongs to two different groups. */
  predicate DisjointGroups(gs: seq<seq<string>>) {
    forall i, j :: 0 <= i < j < |gs| ==> forall x :: x in gs[i] ==> x !in gs[j]
  }

  /** One pick per group of disjoint groups repeats nothing. */
  lemma OneEachDistinct(groups: seq<seq<string>>, picks: seq<nat>)
    requires NonEmptyGroups(groups) && DisjointGroups(groups)
    ensures Distinct(OneEach(groups, picks))
  {
    var e := OneEach(groups, picks);
    forall i, j | 0 <= i < j < |e| ensures e[i] != e[j] {
      assert e[i] in groups[i] && e[j] in groups[j];
    }
  }

  /** Two of the one-per-group picks of disjoint groups are different. */
  lemma TwoOfEachDistinct(groups: seq<seq<string>>, picks: seq<nat>, sample: seq<nat>)
    requires |groups| >= 2 && NonEmptyGroups(groups) && DisjointGroups(groups)
    ensures Distinct(TwoOfEach(groups, picks, sample))
  {
    var each := OneEach(groups, picks);
    OneEachDistinct(groups, picks);
    SampleSubMultiset(each, 2, sample);
    SubMultisetDistinct(TwoOfEach(groups, picks, sample), each);
  }

  /** The pool repeats nothing when the technique names are distinct, the
      groups of each catalogue are disjoint, and the three catalogues share
      no item. */
  lemma PoolFromDistinct(names: seq<string>, chars: seq<seq<string>>, worlds: seq<seq<string>>, d: InnovationDraws)
    requires |names| >= 2 && |chars| >= 2 && |worlds| >= 2
    requires NonEmptyGroups(chars) && NonEmptyGroups(worlds)
    requires Distinct(names) && DisjointGroups(chars) && DisjointGroups(worlds)
    requires forall x :: x in names ==> !InGroups(x, chars) && !InGroups(x, worlds)
    requires forall x :: InGroups(x, chars) ==> !InGroups(x, worlds)
    ensures Distinct(PoolFrom(names, chars, worlds, d))
  {
    var t2 := TwoOf(names, d.techniques);
    SampleSubMultiset(names, 2, d.techniques);
    SubMultisetDistinct(t2, names);
    TwoOfEachDistinct(chars, d.characterPicks, d.characterSample);
    TwoOfEachDistinct(worlds, d.worldPicks, d.worldSample);
    var pool := PoolFrom(names, chars, worlds, d);
    forall i, j | 0 <= i < j < 6 ensures pool[i] != pool[j] {
      if j < 2 {
        assert pool[i] == t2[i] && pool[j] == t2[j];
      } else if i < 2 {
        assert pool[i] in names;
      } else if j < 4 {
        assert pool[i] == TwoOfEach(chars, d.characterPicks, d.characterSample)[i - 2];
        assert pool[j] == TwoOfEach(chars, d.characterPicks, d.characterSample)[j - 2];
      } else if i < 4 {
        assert InGroups(pool[i], chars);
      } else {
        assert pool[i] == TwoOfEach(worlds, d.worldPicks, d.worldSample)[i - 4];
        assert pool[j] == TwoOfEach(worlds, d.worldPicks, d.worldSample)[j - 4];
      }
    }
  }

  lemma CharacterItemsNotWorld0()
    ensures forall x :: x in CharacterInnovations[0] ==> !InGroups(x, WorldInnovations)
  {
    assert forall x :: x in CharacterInnovations[0] ==> x !in WorldInnovations[0] && x !in WorldInnovations[1];
    assert forall x :: x in CharacterInnovations[0] ==> x !in WorldInnovations[2] && x !in WorldInnovations[3];
  }

  lemma CharacterItemsNotWorld1()
    ensures forall x :: x in CharacterInnovations[1] ==> !InGroups(x, WorldInnovations)
  {
    assert forall x :: x in CharacterInnovations[1] ==> x !in WorldInnovations[0] && x !in WorldInnovations[1];
    assert forall x :: x in CharacterInnovations[1] ==> x !in WorldInnovations[2] && x !in WorldInnovations[3];
  }

  lemma CharacterItemsNotWorld2()
    ensures forall x :: x in CharacterInnovations[2] ==> !InGroups(x, WorldInnovations)
  {
    assert forall x :: x in CharacterInnovations[2] ==> x !in WorldInnovations[0] && x !in WorldInnovations[1];
    assert forall x :: x in CharacterInnovations[2] ==> x !in WorldInnovations[2] && x !in WorldInnovations[3];
  }

  lemma CharacterItemsNotWorld3()
    ensures forall x :: x in CharacterInnovations[3] ==> !InGroups(x, WorldInnovations)
  {
    assert forall x :: x in CharacterInnovations[3] ==> x !in WorldInnovations[0] && x !in WorldInnovations[1];
    assert forall x :: x in CharacterInnovations[3] ==> x !in WorldInnovations[2] && x !in WorldInnovations[3];
  }

  /** The 69 catalogue items are pairwise different: no character
      innovation is a world innovation. */
  lemma CharacterWorldDisjoint()
    ensures forall x :: InGroups(x, CharacterInnovations) ==> !InGroups(x, WorldInnovations)
  {
    CharacterItemsNotWorld0();
    CharacterItemsNotWorld1();
    CharacterItemsNotWorld2();
    CharacterItemsNotWorld3();
    forall x | InGroups(x, CharacterInnovations) ensures !InGroups(x, WorldInnovations) {
      var i :| 0 <= i < |CharacterInnovations| && x in CharacterInnovations[i];
      assert i == 0 || i == 1 || i == 2 || i == 3;
    }
  }

  /** The technique names are distinct and no technique name is an innovation. */
  lemma TechniqueNamesSeparate()
    ensures Distinct(TechniqueNames)
    ensures forall x :: x in TechniqueNames ==> !InGroups(x, CharacterInnovations) && !InGroups(x, WorldInnovations)
  {
    TechniqueNotIn(CharacterInnovations);
    TechniqueNotIn(WorldInnovations);
  }

  /** No technique name occurs in any of the four groups of a catalogue. */
  lemma TechniqueNotIn(groups: seq<seq<string>>)
    requires groups == CharacterInnovations || groups == WorldInnovations
    ensures forall x :: x in TechniqueNames ==> !InGroups(x, groups)
  {
    assert forall x :: x in TechniqueNames ==> x !in groups[0] && x !in groups[1];
    assert forall x :: x in TechniqueNames ==> x !in groups[2] && x !in groups[3];
  }

  lemma CharacterFirstGroupSeparate()
    ensures forall x :: x in CharacterInnovations[0] ==> x !in CharacterInnovations[1] && x !in CharacterInnovations[2] && x !in CharacterInnovations[3]
  {
  }

  lemma CharacterGroupsDisjoint()
    ensures DisjointGroups(CharacterInnovations)
  {
    CharacterFirstGroupSeparate();
    assert forall x :: x in CharacterInnovations[1] ==> x !in CharacterInnovations[2];
    assert forall x :: x in CharacterInnovations[1] ==> x !in CharacterInnovations[3];
    assert forall x :: x in CharacterInnovations[2] ==> x !in CharacterInnovations[3];
  }

  lemma WorldFirstGroupSeparate()
    ensures forall x :: x in WorldInnovations[0] ==> x !in WorldInnovations[1] && x !in WorldInnovations[2] && x !in WorldInnovations[3]
  {
  }

  lemma WorldGroupsDisjoint()
    ensures DisjointGroups(WorldInnovations)
  {
    WorldFirstGroupSeparate();
    assert forall x :: x in WorldInnovations[1] ==> x !in WorldInnovations[2];
    assert forall x :: x in WorldInnovations[1] ==> x !in WorldInnovations[3];
    assert forall x :: x in WorldInnovations[2] ==> x !in WorldInnovations[3];
  }

  /** Every pool drawn from the catalogues repeats nothing. */
  lemma InnovationPoolDistinct(d: InnovationDraws)
    ensures Distinct(InnovationPool(d))
  {
    TechniqueNamesSeparate();
    CharacterGroupsDisjoint();
    WorldGroupsDisjoint();
    CharacterWorldDisjoint();
    PoolFromDistinct(TechniqueNames, CharacterInnovations, WorldInnovations, d);
  }

  /** `_select_innovation_factors(randomization_level)`: a sample of
      `min(int(2 + 4r), 6)` pool items; a negative count makes
      `random.sample` raise `ValueError`. */
  function SelectInnovationFactors(level: real, d: InnovationDraws): (r: Result<seq<string>>)
    ensures r.Ok? <==> Trunc(2.0 + level * 4.0) >= 0
    ensures r.Raise? ==> r.exc == ValueError
    ensures r.Ok? ==> |r.value| == Min(Trunc(2.0 + level * 4.0), 6)
    ensures r.Ok? ==> multiset(r.value) <= multiset(InnovationPool(d))
  {
    var pool := InnovationPool(d);
    var k := Min(Trunc(2.0 + level * 4.0), |pool|);
    if k < 0 then Sample(pool, k, d.final)
    else
      SampleSubMultiset(pool, k, d.final);
      Sample(pool, k, d.final)
  }

  /** The factors never repeat an item. */
  lemma InnovationFactorsDistinct(level: real, d: InnovationDraws)
    ensures var r := SelectInnovationFactors(level, d); r.Ok? ==> Distinct(r.value)
  {
    var r := SelectInnovationFactors(level, d);
    if r.Ok? {
      InnovationPoolDistinct(d);
      SubMultisetDistinct(r.value, InnovationPool(d));
    }
  }

  /** For a level in [0, 1] the selection succeeds with 2 to 6 factors. */
  lemma InnovationFactorsInRange(level: real, d: InnovationDraws)
    requires 0.0 <= level <= 1.0
    ensures var r := SelectInnovationFactors(level, d); r.Ok? && 2 <= |r.value| <= 6
  {
  }

  /** A selected plot twist. */
  datatype Twist = Twist(kind: string, variation: string, timing: string, impact: string)

  /** The four `random.choice` outcomes of one twist. */
  datatype TwistDraw = TwistDraw(kind: nat, variation: nat, timing: nat, impact: nat)

  /** A twist whose variation, timing and impact all belong to its type. */
  predicate WellFormedTwist(t: Twist) {
    exists k :: k in PlotTwists && k.name == t.kind
      && t.variation in k.types && t.timing in k.timing && t.impact in k.impact
  }

  function DrawTwist(dr: TwistDraw): (t: Twist)
    ensures WellFormedTwist(t)
  {
    var k := PlotTwists[dr.kind % |PlotTwists|];
    assert k in PlotTwists;
    Twist(k.name, k.types[dr.variation % |k.types|], k.timing[dr.timing % |k.timing|], k.impact[dr.impact % |k.impact|])
  }

  function Twists(n: nat, draws: seq<TwistDraw>): (r: seq<Twist>)
    ensures |r| == n
    ensures forall i :: 0 <= i < n ==> WellFormedTwist(r[i])
  {
    if n == 0 then []
    else
      var dr := if |draws| > 0 then draws[0] else TwistDraw(0, 0, 0, 0);
      [DrawTwist(dr)] + Twists(n - 1, if |draws| > 0 then draws[1..] else [])
  }

  /** `_select_plot_twists(randomization_level)`: `int(1 + 3r)` twists
      (none when that is negative: `range` of a negative count is empty). */
  function SelectPlotTwists(level: real, draws: seq<TwistDraw>): (r: seq<Twist>)
    ensures |r| == Max(Trunc(1.0 + level * 3.0), 0)
    ensures forall i :: 0 <= i < |r| ==> WellFormedTwist(r[i])
  {
    Twists(Max(Trunc(1.0 + level * 3.0), 0), draws)
  }

  /** For a level in [0, 1] there are 1 to 4 twists. */
  lemma PlotTwistsInRange(level: real, draws: seq<TwistDraw>)
    requires 0.0 <= level <= 1.0
    ensures 1 <= |SelectPlotTwists(level, draws)| <= 4
  {
  }

  /** Characters `_clean_name` deletes outright. */
  const NameStripChars: set<char> := {'"', '`', '(', ')', '（', '）', '【', '】', '[', ']', '<', '>', '《', '》', '：', ':'}

  /** Characters at which `_clean_name` cuts the rest of a line. */
  const NameCutChars: set<char> := {'，', '。', '！', '？', '；', ',', '!', '?', ';'}

  predicate AllHan(s: string) {
    forall i :: 0 <= i < |s| ==> Text.IsHan(s[i])
  }

  /** A name `_clean_name` accepts: 2 to 5 CJK unified ideographs. */
  predicate IsCleanName(s: string) {
    2 <= |s| <= 5 && AllHan(s)
  }

  /** `_clean_name`: strip, delete quote and bracket characters, cut every
      line at its first punctuation mark, and keep the first word when it is
      2 to 5 ideographs; otherwise "". */
  function CleanName(raw: string): (r: string)
    ensures r == "" || IsCleanName(r)
  {
    var cleaned := Text.CutLines(Text.RemoveChars(Text.Strip(raw), NameStripChars), NameCutChars);
    var words := Text.Words(cleaned);
    if |words| > 0 && IsCleanName(words[0]) then words[0] else ""
  }

  /** An ideograph is neither whitespace, a deleted character nor a cut character. */
  lemma HanIsPlain(c: char)
    requires Text.IsHan(c)
    ensures !Text.IsSpace(c) && c !in NameStripChars && c !in NameCutChars && c != '\n'
  {
  }

  /** A clean name passes through `_clean_name` unchanged. */
  lemma CleanNameKeepsCleanNames(n: string)
    requires IsCleanName(n)
    ensures CleanName(n) == n
  {
    CleaningKeepsPlain(n);
    assert Text.IsWord(n) by {
      forall i | 0 <= i < |n| ensures !Text.IsSpace(n[i]) {
        HanIsPlain(n[i]);
      }
    }
    Text.WordsWordCons(n, "");
    assert n + "" == n;
    assert Text.Words(n) == [n];
  }

  /** Stripping, deleting and cutting leave a string of ideographs alone. */
  lemma CleaningKeepsPlain(n: string)
    requires AllHan(n)
    ensures Text.CutLines(Text.RemoveChars(Text.Strip(n), NameStripChars), NameCutChars) == n
  {
    forall i | 0 <= i < |n| ensures !Text.IsSpace(n[i]) && n[i] !in NameStripChars && n[i] !in NameCutChars && n[i] != '\n' {
      HanIsPlain(n[i]);
    }
    Text.StripNoSpaceEnds(n);
    Text.RemoveCharsNone(n, NameStripChars);
    Text.CutLinesNone(n, NameCutChars);
  }

  /** The outcome of one language-model naming attempt (lines 405-409). */
  function AcceptName(used: set<string>, raw: string): (r: (Option<string>, set<string>))
    ensures r.0.Some? <==> CleanName(raw) != "" && CleanName(raw) !in used
    ensures r.0.Some? ==> r.0.value == CleanName(raw) && IsCleanName(r.0.value) && r.1 == used + {r.0.value}
    ensures r.0.None? ==> r.1 == used
  {
    var name := CleanName(raw);
    if name != "" && name !in used && |name| >= 2 then (Some(name), used + {name}) else (None, used)
  }

  const Surnames: seq<string> := ["慕容", "欧阳", "司徒", "独孤", "李", "王", "赵", "林"]
  const PrefixModifiers: seq<string> := ["风", "云", "雷", "火", "冰", "雪", "星", "月"]
  const SuffixModifiers: seq<string> := ["轩", "宇", "辰", "阳", "煜", "瑜", "琛", "璟"]

  /** The candidate tried at counter `c`. */
  function Numbered(original: string, c: nat): string {
    original + Text.NatToStr(c)
  }

  /** Distinct counters give distinct candidates. */
  lemma NumberedInjective(original: string, a: nat, b: nat)
    requires Numbered(original, a) == Numbered(original, b)
    ensures a == b
  {
    var sa := Text.NatToStr(a);
    var sb := Text.NatToStr(b);
    assert sa == Numbered(original, a)[|original|..];
    assert sb == Numbered(original, b)[|original|..];
    Text.ParseNatStr(a);
    Text.ParseNatStr(b);
  }

  /** The de-duplication loop of `_generate_composite_name`: the original
      name if free, else the original followed by the smallest free counter
      from 1 on; the result is added to the used set. */
  method UniqueName(used: set<string>, original: string) returns (name: string, used': set<string>)
    ensures name !in used && used' == used + {name}
    ensures original !in used ==> name == original
    ensures original in used ==>
      exists c: nat :: (1 <= c && name == Numbered(original, c)
        && forall k: nat :: 1 <= k < c ==> Numbered(original, k) in used)
  {
    name := original;
    var counter: nat := 1;
    ghost var tried: set<string> := {};
    while name in used
      invariant counter >= 1
      invariant name == original <==> counter == 1
      invariant counter > 1 ==> name == Numbered(original, counter - 1)
      invariant forall k: nat :: 1 <= k < counter - 1 ==> Numbered(original, k) in used
      invariant counter > 1 ==> original in used
      invariant tried <= used
      invariant |tried| == counter - 1
      invariant forall t :: t in tried ==> t == original || exists k: nat :: 1 <= k < counter - 1 && t == Numbered(original, k)
      decreases |used| - |tried|
    {
      assert name !in tried by {
        if name in tried {
          if name == original {
            assert false;
          } else {
            var k: nat :| 1 <= k < counter - 1 && name == Numbered(original, k);
            if counter == 1 {
              assert false;
            } else {
              NumberedInjective(original, k, counter - 1);
              assert false;
            }
          }
        }
      }
      tried := tried + {name};
      SubsetCard(tried, used);
      name := Numbered(original, counter);
      counter := counter + 1;
    }
    used' := used + {name};
  }

  /** The three `random.choice` outcomes of `_generate_composite_name`. */
  datatype NameDraw = NameDraw(surname: nat, prefix: nat, suffix: nat)

  /** The composite candidate: a surname, a prefix and a suffix modifier. */
  function CompositeBase(dr: NameDraw): (n: string)
    ensures exists s, p, x :: s in Surnames && p in PrefixModifiers && x in SuffixModifiers && n == s + p + x
  {
    var s := Surnames[dr.surname % |Surnames|];
    var p := PrefixModifiers[dr.prefix % |PrefixModifiers|];
    var x := SuffixModifiers[dr.suffix % |SuffixModifiers|];
    assert s in Surnames && p in PrefixModifiers && x in SuffixModifiers;
    s + p + x
  }

  /** `_generate_composite_name`: a fresh composite name, recorded as used. */
  method CompositeName(used: set<string>, dr: NameDraw) returns (name: string, used': set<string>)
    ensures name !in used && used' == used + {name}
    ensures name == CompositeBase(dr) || exists c: nat :: 1 <= c && name == Numbered(CompositeBase(dr), c)
  {
    name, used' := UniqueName(used, CompositeBase(dr));
  }

  /** `_generate_unique_character_name` asks the language model at most eight times. */
  const MaxNameAttempts := 8

  /** The cleaned names of the first `n` replies, in reply order. */
  function Cleaned(replies: seq<string>, n: nat): (c: seq<string>)
    requires n <= |replies|
    ensures |c| == n
    ensures forall k :: 0 <= k < n ==> c[k] == CleanName(replies[k])
    ensures forall k :: 0 <= k < n ==> c[k] == "" || IsCleanName(c[k])
  {
    seq(n, k requires 0 <= k < n => CleanName(replies[k]))
  }

  /** A cleaned name the loop accepts: non-empty and not yet used. */
  predicate Free(used: set<string>, name: string) {
    name != "" && name !in used
  }

  /** The position of the first free name at or after `from`, if any. */
  function FirstFree(used: set<string>, names: seq<string>, from: nat): (r: Option<nat>)
    requires from <= |names|
    ensures r.Some? ==>
      && from <= r.value < |names| && Free(used, names[r.value])
      && forall j :: from <= j < r.value ==> !Free(used, names[j])
    ensures r.None? ==> forall j :: from <= j < |names| ==> !Free(used, names[j])
    decreases |names| - from
  {
    if from == |names| then None
    else if Free(used, names[from]) then Some(from)
    else FirstFree(used, names, from + 1)
  }

  /** The loop of `_generate_unique_character_name` over the cleaned
      replies: the first free one, else a composite name; in every case a
      name not used before, then recorded as used. */
  method FirstFreeOrComposite(used: set<string>, c: seq<string>, dr: NameDraw) returns (name: string, used': set<string>)
    requires forall k :: 0 <= k < |c| ==> c[k] == "" || IsCleanName(c[k])
    ensures name !in used && used' == used + {name}
    ensures (forall k :: 0 <= k < |c| ==> !Free(used, c[k])) ==>
      name == CompositeBase(dr) || exists n: nat :: 1 <= n && name == Numbered(CompositeBase(dr), n)
    ensures (exists k :: 0 <= k < |c| && Free(used, c[k])) ==>
      (IsCleanName(name)
       && exists k :: 0 <= k < |c| && name == c[k] && forall j :: 0 <= j < k ==> !Free(used, c[j]))
  {
    var first := FirstFree(used, c, 0);
    if first.Some? {
      name, used' := c[first.value], used + {c[first.value]};
      assert 0 <= first.value < |c| && name == c[first.value] && Free(used, c[first.value]);
    } else {
      name, used' := CompositeName(used, dr);
    }
  }

  /** `_generate_unique_character_name` given the model's eight replies. */
  method UniqueCharacterName(used: set<string>, replies: seq<string>, dr: NameDraw) returns (name: string, used': set<string>)
    requires |replies| == MaxNameAttempts
    ensures name !in used && used' == used + {name}
    ensures var c := Cleaned(replies, MaxNameAttempts);
      (exists k :: 0 <= k < |c| && Free(used, c[k])) ==>
        (IsCleanName(name)
         && exists k :: 0 <= k < |c| && name == c[k] && forall j :: 0 <= j < k ==> !Free(used, c[j]))
    ensures var c := Cleaned(replies, MaxNameAttempts);
      (forall k :: 0 <= k < |c| ==> !Free(used, c[k])) ==>
        name == CompositeBase(dr) || exists n: nat :: 1 <= n && name == Numbered(CompositeBase(dr), n)
  {
    name, used' := FirstFreeOrComposite(used, Cleaned(replies, MaxNameAttempts), dr);
  }

  /** The implementation list of the first technique named `name`. */
  function Lookup(ts: seq<Technique>, name: string): (r: Option<seq<string>>)
    ensures r.Some? <==> exists t :: t in ts && t.name == name
    ensures r.Some? ==> exists t :: t in ts && t.name == name && t.implementations == r.value
  {
    if |ts| == 0 then None
    else if ts[0].name == name then Some(ts[0].implementations)
    else Lookup(ts[1..], name)
  }

  /** The names listed are exactly the techniques' names. */
  lemma TechniqueNamesMatch()
    ensures forall name :: name in TechniqueNames <==> exists t :: t in Techniques && t.name == name
  {
    assert forall i :: 0 <= i < |Techniques| ==> Techniques[i].name == TechniqueNames[i];
    forall name | name in TechniqueNames ensures exists t :: t in Techniques && t.name == name {
      var i :| 0 <= i < |TechniqueNames| && TechniqueNames[i] == name;
      assert Techniques[i] in Techniques;
    }
  }

  /** Every technique has implementations. */
  lemma TechniquesImplemented()
    ensures forall t :: t in Techniques ==> |t.implementations| > 0
  {
  }

  /** Whether an implementation fits the chapter's position: the first three
      chapters want an opening or an introduction, chapters from 15 on an
      ending or a summary, the others anything. */
  predicate SuitsChapter(impl: string, chapter: int) {
    if chapter <= 3 then Text.Contains(impl, "开场") || Text.Contains(impl, "介绍")
    else if chapter >= 15 then Text.Contains(impl, "结尾") || Text.Contains(impl, "总结")
    else true
  }

  /** `_get_technique_application`: "常规叙述" for a missing or unknown
      technique; otherwise a draw from the implementations that suit the
      chapter, or from all of them when none does. */
  function TechniqueApplication(technique: Option<string>, chapter: int, draw: nat): (r: string)
    ensures (technique.None? || Lookup(Techniques, technique.value).None?) ==> r == "常规叙述"
    ensures technique.Some? && Lookup(Techniques, technique.value).Some? ==>
      var impls := Lookup(Techniques, technique.value).value;
      && r in impls
      && ((exists i :: i in impls && SuitsChapter(i, chapter)) ==> SuitsChapter(r, chapter))
  {
    if technique.None? then "常规叙述"
    else match Lookup(Techniques, technique.value)
      case None => "常规叙述"
      case Some(impls) =>
        TechniquesImplemented();
        var suitable := Filter(impls, i => SuitsChapter(i, chapter));
        var choices := if |suitable| > 0 then suitable else impls;
        assert choices[draw % |choices|] in choices;
        choices[draw % |choices|]
  }

  /** A story configuration (`EnhancedStoryConfig`). */
  datatype StoryConfig = StoryConfig(
    baseTheme: string,
    variant: DE.Variant,
    level: real,
    factors: seq<string>,
    adherence: real)

  /** The constraints `generate_enhanced_story_config` passes on: those of
      the last five records when avoiding recent elements, else none. */
  function ConfigConstraints(e: DE.Enhancer, avoidRecent: bool): DE.Constraints {
    if avoidRecent then DE.AvoidanceConstraints(e.history, 5) else DE.NoConstraints
  }

  /** `generate_enhanced_story_config` under constraints `c`: a variant
      (recorded in the history), then the innovation factors; adherence is
      `0.7 + 0.3r`.  A raising selection leaves the history alone; raising
      factors come after the variant has been recorded. */
  function ConfigUnder(e: DE.Enhancer, c: DE.Constraints, theme: string, level: real,
                       d: DE.Draws, inn: InnovationDraws, now: int): (r: (Result<StoryConfig>, DE.Enhancer))
    ensures var v := DE.SelectVariant(c, d);
      && (v.Raise? ==> r.0 == Raise(v.exc) && r.1 == e)
      && (v.Ok? ==> r.1.history == DE.RecordGeneration(e.history, v.value, now))
      && (r.0.Ok? ==> v.Ok? && r.0.value.variant == v.value)
    ensures r.0.Ok? <==> DE.SelectVariant(c, d).Ok? && SelectInnovationFactors(level, inn).Ok?
    ensures r.0.Ok? ==>
      && r.0.value.baseTheme == theme
      && r.0.value.level == level
      && r.0.value.adherence == 0.7 + level * 0.3
      && r.0.value.factors == SelectInnovationFactors(level, inn).value
  {
    var (v, e') := DE.GenerateDiverseVariant(e, c, d, now);
    if v.Raise? then (Raise(v.exc), e')
    else
      var factors := SelectInnovationFactors(level, inn);
      if factors.Raise? then (Raise(factors.exc), e')
      else (Ok(StoryConfig(theme, v.value, level, factors.value, 0.7 + level * 0.3)), e')
  }

  /** `generate_enhanced_story_config` with its `avoid_recent` switch. */
  function GenerateStoryConfig(e: DE.Enhancer, theme: string, level: real, avoidRecent: bool,
                               d: DE.Draws, inn: InnovationDraws, now: int): (r: (Result<StoryConfig>, DE.Enhancer))
  {
    ConfigUnder(e, ConfigConstraints(e, avoidRecent), theme, level, d, inn, now)
  }

  /** With `avoid_recent`, a configuration's variant repeats no structure,
      archetype or flavour of the last five generations; for a level in
      [0, 1] it carries 2 to 6 distinct factors. */
  lemma ConfigAvoidsRecent(e: DE.Enhancer, theme: string, level: real, d: DE.Draws, inn: InnovationDraws, now: int)
    ensures var r := GenerateStoryConfig(e, theme, level, true, d, inn, now);
      r.0.Ok? ==> forall rec :: rec in DE.Window(e.history, 5) ==>
        && rec.elements.structure != r.0.value.variant.structure
        && rec.elements.archetype != r.0.value.variant.archetype
        && rec.elements.flavor != r.0.value.variant.flavor
    ensures var r := GenerateStoryConfig(e, theme, level, true, d, inn, now);
      r.0.Ok? ==> Distinct(r.0.value.factors)
  {
    DE.AvoidanceHonoured(e.history, 5, d);
    InnovationFactorsDistinct(level, inn);
  }

  /** A successful configuration for a level in [0, 1] has 2 to 6 factors
      and an adherence between 0.7 and 1.0. */
  lemma ConfigInRange(e: DE.Enhancer, c: DE.Constraints, theme: string, level: real, d: DE.Draws, inn: InnovationDraws, now: int)
    requires 0.0 <= level <= 1.0
    ensures var r := ConfigUnder(e, c, theme, level, d, inn, now);
      r.0.Ok? ==> 2 <= |r.0.value.factors| <= 6 && 0.7 <= r.0.value.adherence <= 1.0
  {
    InnovationFactorsInRange(level, inn);
  }

  /** `random.choice` over the factors that name a narrative technique: no
      such factor makes it raise `IndexError`. */
  function ChooseTechnique(factors: seq<string>, draw: nat): (r: Result<string>)
    ensures r.Raise? <==> forall f :: f in factors ==> f !in TechniqueNames
    ensures r.Raise? ==> r.exc == IndexError
    ensures r.Ok? ==> r.value in factors && r.value in TechniqueNames
  {
    var techniques := Filter(factors, f => f in TechniqueNames);
    if |techniques| == 0 then Raise(IndexError)
    else
      assert techniques[draw % |techniques|] in techniques;
      Ok(techniques[draw % |techniques|])
  }

  /** The computed part of a plot outline; its text comes from the model. */
  datatype OutlinePlan = OutlinePlan(structure: string, technique: string, twists: seq<Twist>, chapterCount: int)

  /** `generate_enhanced_plot_outline`: the variant's structure must be a
      catalogue key (else `KeyError`), twists follow the level, and the
      technique is drawn from the technique-naming factors. */
  function PlanOutline(config: StoryConfig, chapterCount: int, twists: seq<TwistDraw>, draw: nat): (r: Result<OutlinePlan>)
    ensures config.variant.structure !in DE.StructureNames ==> r == Raise(KeyError)
    ensures config.variant.structure in DE.StructureNames ==>
      (r.Ok? <==> exists f :: f in config.factors && f in TechniqueNames)
    ensures config.variant.structure in DE.StructureNames && r.Raise? ==> r.exc == IndexError
    ensures r.Ok? ==>
      && r.value.structure == config.variant.structure
      && r.value.technique in config.factors && r.value.technique in TechniqueNames
      && |r.value.twists| == Max(Trunc(1.0 + config.level * 3.0), 0)
      && (forall i :: 0 <= i < |r.value.twists| ==> WellFormedTwist(r.value.twists[i]))
      && r.value.chapterCount == chapterCount
  {
    if config.variant.structure !in DE.StructureNames then Raise(KeyError)
    else
      var selected := SelectPlotTwists(config.level, twists);
      var technique :- ChooseTechnique(config.factors, draw);
      Ok(OutlinePlan(config.variant.structure, technique, selected, chapterCount))
  }

  /** The `chapter_info` entries the chapter uses. */
  datatype ChapterInfo = ChapterInfo(number: Option<int>, title: Option<string>)

  /** The random outcomes of one chapter. */
  datatype ChapterDraws = ChapterDraws(innovations: seq<nat>, application: nat, element: nat)

  /** The computed part of a chapter; its text comes from the model. */
  datatype ChapterPlan = ChapterPlan(
    number: int,
    title: string,
    innovations: seq<string>,
    technique: Option<string>,
    application: string,
    element: string)

  /** `generate_enhanced_chapter`: number 1 and title "第N章" by default, up
      to two of the factors, the technique's application for this chapter,
      and one unique element (an empty element list makes `random.choice`
      raise `IndexError`). */
  function PlanChapter(config: StoryConfig, info: ChapterInfo, technique: Option<string>, d: ChapterDraws): (r: Result<ChapterPlan>)
    ensures r.Raise? <==> |config.variant.uniqueElements| == 0
    ensures r.Raise? ==> r.exc == IndexError
    ensures r.Ok? ==>
      && r.value.number == info.number.GetOr(1)
      && r.value.title == (if info.title.Some? then info.title.value else "第" + Text.IntToStr(r.value.number) + "章")
      && |r.value.innovations| == Min(2, |config.factors|)
      && multiset(r.value.innovations) <= multiset(config.factors)
      && r.value.technique == technique
      && r.value.application == TechniqueApplication(technique, r.value.number, d.application)
      && r.value.element in config.variant.uniqueElements
  {
    var number := info.number.GetOr(1);
    var title := if info.title.Some? then info.title.value else "第" + Text.IntToStr(number) + "章";
    var k := Min(2, |config.factors|);
    SampleSubMultiset(config.factors, k, d.innovations);
    var innovations := Sample(config.factors, k, d.innovations).value;
    var element :- Pick(config.variant.uniqueElements, d.element);
    Ok(ChapterPlan(number, title, innovations, technique, TechniqueApplication(technique, number, d.application), element))
  }

  /** A `config` dictionary handed back to the tool; `None` marks a missing key. */
  datatype ConfigData = ConfigData(
    theme: Option<string>,
    variant: Option<DE.Variant>,
    level: Option<real>,
    factors: Option<seq<string>>,
    adherence: Option<real>)

  /** The configuration the tool rebuilds from a `config` dictionary: a
      missing variant leaves `GenerationVariant(**{})` without its required
      arguments (`TypeError`); the other keys fall back to the call's theme
      and level, no factors and adherence 0.7. */
  function RebuildConfig(data: ConfigData, theme: string, level: real): (r: Result<StoryConfig>)
    ensures r.Raise? <==> data.variant.None?
    ensures r.Raise? ==> r.exc == TypeError
    ensures r.Ok? ==>
      && r.value.variant == data.variant.value
      && r.value.baseTheme == data.theme.GetOr(theme)
      && r.value.level == data.level.GetOr(level)
      && r.value.factors == data.factors.GetOr([])
      && r.value.adherence == data.adherence.GetOr(0.7)
  {
    if data.variant.None? then Raise(TypeError)
    else Ok(StoryConfig(data.theme.GetOr(theme), data.variant.value, data.level.GetOr(level),
                        data.factors.GetOr([]), data.adherence.GetOr(0.7)))
  }

  /** A non-empty `plot_outline` dictionary: its `narrative_technique`. */
  datatype Outline = Outline(technique: Option<string>)

  /** The parameters `EnhancedStoryGeneratorTool.execute` reads; a missing or
      empty `config`, `plot_outline` or `chapter_info` is `None`, and
      `characters` are the given character names. */
  datatype GenParams = GenParams(
    action: Option<string>,
    theme: Option<string>,
    level: Option<real>,
    avoidRecent: Option<bool>,
    chapterCount: Option<int>,
    config: Option<ConfigData>,
    characters: seq<string>,
    plotOutline: Option<Outline>,
    chapterInfo: Option<ChapterInfo>)

  /** Every random outcome one tool call may use. */
  datatype GenDraws = GenDraws(
    variant: DE.Draws,
    innovation: InnovationDraws,
    twists: seq<TwistDraw>,
    technique: nat,
    chapter: ChapterDraws)

  /** The dictionaries the tool returns, reduced to their computed parts. */
  datatype GenOutput =
    | ConfigOut(config: StoryConfig)
    | CharacterOut(config: StoryConfig, characterType: string)
    | OutlineOut(config: StoryConfig, outline: OutlinePlan)
    | ChapterOut(chapter: ChapterPlan)
    | StoryOut(config: StoryConfig, outline: OutlinePlan)
    | GenError(message: string)

  /** The five actions the tool knows. */
  datatype GenAction = ConfigAct | CharacterAct | OutlineAct | ChapterAct | FullStoryAct

  /** The action an `action` parameter names, if any. */
  function ActionOf(name: string): (r: Option<GenAction>)
    ensures r == Some(ConfigAct) <==> name == "config"
    ensures r == Some(CharacterAct) <==> name == "character"
    ensures r == Some(OutlineAct) <==> name == "outline"
    ensures r == Some(ChapterAct) <==> name == "chapter"
    ensures r == Some(FullStoryAct) <==> name == "full_story"
  {
    if name == "config" then Some(ConfigAct)
    else if name == "character" then Some(CharacterAct)
    else if name == "outline" then Some(OutlineAct)
    else if name == "chapter" then Some(ChapterAct)
    else if name == "full_story" then Some(FullStoryAct)
    else None
  }

  /** The action of a call's parameters; a missing one names none. */
  function RequestedAction(p: GenParams): Option<GenAction> {
    if p.action.None? then None else ActionOf(p.action.value)
  }

  /** The `config` action: a fresh configuration. */
  function ConfigAction(e: DE.Enhancer, c: DE.Constraints, theme: string, level: real, d: GenDraws, now: int): (r: (Result<GenOutput>, DE.Enhancer))
    ensures r.0.Ok? ==>
      && r.0.value.ConfigOut?
      && r.0.value.config.baseTheme == theme
      && r.0.value.config.level == level
      && r.0.value.config.adherence == 0.7 + level * 0.3
  {
    var (config, e') := ConfigUnder(e, c, theme, level, d.variant, d.innovation, now);
    (if config.Ok? then Ok(ConfigOut(config.value)) else Raise(config.exc), e')
  }

  /** The `character` and `outline` actions, given a configuration. */
  function ConfigUseAction(outline: bool, data: ConfigData, theme: string, level: real, chapterCount: int, d: GenDraws): (r: Result<GenOutput>)
    ensures data.variant.None? ==> r == Raise(TypeError)
    ensures outline && r.Ok? ==>
      && r.value.OutlineOut?
      && r.value.outline.chapterCount == chapterCount
      && r.value.outline.technique in r.value.config.factors
    ensures !outline && r.Ok? ==> r.value.CharacterOut? && r.value.characterType == "主角"
  {
    var c :- RebuildConfig(data, theme, level);
    if outline then
      var o :- PlanOutline(c, chapterCount, d.twists, d.technique);
      Ok(OutlineOut(c, o))
    else
      Ok(CharacterOut(c, "主角"))
  }

  /** The `chapter` action, given all its inputs. */
  function ChapterAction(data: ConfigData, outline: Outline, info: ChapterInfo, theme: string, level: real, d: GenDraws): (r: Result<GenOutput>)
    ensures data.variant.None? ==> r == Raise(TypeError)
    ensures r.Ok? ==> r.value.ChapterOut? && r.value.chapter.technique == outline.technique
  {
    var c :- RebuildConfig(data, theme, level);
    var ch :- PlanChapter(c, info, outline.technique, d.chapter);
    Ok(ChapterOut(ch))
  }

  /** The `full_story` action: a configuration, then its outline. */
  function FullStoryAction(e: DE.Enhancer, c: DE.Constraints, theme: string, level: real, chapterCount: int, d: GenDraws, now: int): (r: (Result<GenOutput>, DE.Enhancer))
    ensures r.0.Ok? ==>
      && r.0.value.StoryOut?
      && r.0.value.config.baseTheme == theme
      && r.0.value.config.level == level
      && r.0.value.config.adherence == 0.7 + level * 0.3
      && r.0.value.outline.chapterCount == chapterCount
      && r.0.value.outline.technique in r.0.value.config.factors
  {
    var (config, e') := ConfigUnder(e, c, theme, level, d.variant, d.innovation, now);
    if config.Raise? then (Raise(config.exc), e')
    else
      var o := PlanOutline(config.value, chapterCount, d.twists, d.technique);
      (if o.Ok? then Ok(StoryOut(config.value, o.value)) else Raise(o.exc), e')
  }

  /** `EnhancedStoryGeneratorTool.execute`: theme 修仙, level 0.8,
      `avoid_recent` and 20 chapters by default; `character` and `outline`
      need a configuration, `chapter` needs configuration, characters, outline
      and chapter information; other actions are refused.  Only `config` and
      `full_story` record a generation. */
  function Execute(e: DE.Enhancer, p: GenParams, d: GenDraws, now: int): (r: (Result<GenOutput>, DE.Enhancer))
    ensures RequestedAction(p).None? ==> r == (Ok(GenError("不支持的操作类型")), e)
    ensures RequestedAction(p) in {Some(CharacterAct), Some(OutlineAct)} && p.config.None? ==>
      r == (Ok(GenError("需要提供故事配置")), e)
    ensures (RequestedAction(p) == Some(ChapterAct)
             && (p.config.None? || |p.characters| == 0 || p.plotOutline.None? || p.chapterInfo.None?)) ==>
      r == (Ok(GenError("需要提供完整的生成参数")), e)
    ensures RequestedAction(p) !in {Some(ConfigAct), Some(FullStoryAct)} ==> r.1 == e
  {
    var theme := p.theme.GetOr("修仙");
    var level := p.level.GetOr(0.8);
    var chapters := p.chapterCount.GetOr(20);
    match RequestedAction(p)
    case None => (Ok(GenError("不支持的操作类型")), e)
    case Some(ConfigAct) =>
      ConfigAction(e, ConfigConstraints(e, p.avoidRecent.GetOr(true)), theme, level, d, now)
    case Some(FullStoryAct) =>
      FullStoryAction(e, ConfigConstraints(e, p.avoidRecent.GetOr(true)), theme, level, chapters, d, now)
    case Some(ChapterAct) =>
      if p.config.None? || |p.characters| == 0 || p.plotOutline.None? || p.chapterInfo.None? then
        (Ok(GenError("需要提供完整的生成参数")), e)
      else (ChapterAction(p.config.value, p.plotOutline.value, p.chapterInfo.value, theme, level, d), e)
    case Some(action) =>
      if p.config.None? then (Ok(GenError("需要提供故事配置")), e)
      else (ConfigUseAction(action == OutlineAct, p.config.value, theme, level, chapters, d), e)
  }

  /** A successful `config` or `full_story` call uses theme 修仙 and level
      0.8 unless given, with adherence `0.7 + 0.3r`. */
  lemma ExecuteConfigDefaults(e: DE.Enhancer, p: GenParams, d: GenDraws, now: int)
    requires RequestedAction(p) in {Some(ConfigAct), Some(FullStoryAct)}
    ensures var r := Execute(e, p, d, now);
      r.0.Ok? ==>
        && (r.0.value.ConfigOut? || r.0.value.StoryOut?)
        && r.0.value.config.baseTheme == p.theme.GetOr("修仙")
        && r.0.value.config.level == p.level.GetOr(0.8)
        && r.0.value.config.adherence == 0.7 + p.level.GetOr(0.8) * 0.3
  {
  }

  /** A successful outline, alone or within a full story, has 20 chapters
      unless told otherwise, and a technique taken from the factors. */
  lemma ExecuteOutlineDefaults(e: DE.Enhancer, p: GenParams, d: GenDraws, now: int)
    requires RequestedAction(p) in {Some(OutlineAct), Some(FullStoryAct)}
    ensures var r := Execute(e, p, d, now);
      r.0.Ok? && !r.0.value.GenError? ==>
        && (r.0.value.OutlineOut? || r.0.value.StoryOut?)
        && r.0.value.outline.chapterCount == p.chapterCount.GetOr(20)
        && r.0.value.outline.technique in r.0.value.config.factors
  {
  }
}
