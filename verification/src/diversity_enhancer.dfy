/** The recency-avoidance variant engine (`DiversityEnhancer` in
    modules/generation/diversity_enhancer.py).

    A variant picks one story structure, archetype and world flavour uniformly
    from its catalogue minus an avoid-set, and a conflict and a tone from the
    full catalogues.  Every generated variant appends one record to a bounded
    history; avoidance constraints are the value sets of the most recent
    records.  Randomness is an injected `Draws` value, the clock an injected
    timestamp. */
module DiversityEnhancer {
  import opened Wrappers
  import opened Seqs
  import opened Dicts
  import Text

  /** A catalogued story structure with the pacing it prescribes. */
  datatype Structure = Structure(name: string, pacing: string)

  const Structures: seq<Structure> := [
    Structure("英雄之旅", "渐进式"),
    Structure("多线并行", "交替推进"),
    Structure("时间循环", "螺旋上升"),
    Structure("双重身份", "悬疑推进"),
    Structure("逆转重构", "层层剥离"),
    Structure("spiral_ascension", "递增强化")
  ]

  const StructureNames: seq<string> :=
    ["英雄之旅", "多线并行", "时间循环", "双重身份", "逆转重构", "spiral_ascension"]

  const Archetypes: seq<string> := ["不羁浪子", "天才少年", "复仇使者", "迷茫探索者", "隐世高人", "堕落天才"]

  const Flavors: seq<string> := ["古典仙侠", "现代都市", "蒸汽朋克", "末世废土", "奇幻大陆"]

  const Conflicts: seq<string> := ["权力斗争", "生存危机", "身份认同", "道德选择", "时间悖论"]

  const Tones: seq<string> := [
    "轻松幽默", "严肃深沉", "神秘悬疑", "热血激昂", "温馨治愈", "黑暗沉重",
    "诗意浪漫", "紧张刺激", "哲思探索", "讽刺批判", "史诗宏大", "日常温馨"
  ]

  /** One unique-element category and its items. */
  datatype ElementGroup = ElementGroup(category: string, items: seq<string>)

  const UniqueElements: seq<ElementGroup> := [
    ElementGroup("特殊设定", ["时间操控", "记忆交换", "梦境世界", "平行时空", "意识传输", "概率操控", "情感具象化", "思维共鸣"]),
    ElementGroup("特殊道具", ["时光沙漏", "记忆水晶", "命运罗盘", "心灵镜子", "愿望之书", "真实之眼", "灵魂天平", "因果链条"]),
    ElementGroup("特殊地点", ["倒流瀑布", "镜像森林", "重力异常区", "时间裂缝", "梦境交汇点", "记忆图书馆", "愿望许愿池", "命运交叉口"]),
    ElementGroup("特殊生物", ["时间龙", "梦境狐", "记忆鸟", "命运蝶", "愿望精灵", "真相之蛇", "预言猫头鹰", "因果乌鸦"])
  ]

  /** The structure names are the names of the structure catalogue, in order. */
  lemma StructureNamesMatch()
    ensures |StructureNames| == |Structures|
    ensures forall i :: 0 <= i < |Structures| ==> StructureNames[i] == Structures[i].name
  {
  }

  /** `DiversityConstraints`; an unset avoid-set behaves as the empty set. */
  datatype Constraints = Constraints(
    avoidCharacters: set<string>,
    avoidPlots: set<string>,
    avoidSettings: set<string>,
    avoidStructures: set<string>,
    requiredUniqueness: real)

  const NoConstraints := Constraints({}, {}, {}, {}, 0.7)

  /** The selection-relevant part of `GenerationVariant` (the hash id, title and
      description come from hashing and the language model). */
  datatype Variant = Variant(
    structure: string,
    archetype: string,
    flavor: string,
    conflict: string,
    tone: string,
    pacing: string,
    uniqueElements: seq<string>)

  /** The outcomes of the `random.choice` calls of one generation. */
  datatype Draws = Draws(structure: nat, archetype: nat, flavor: nat, conflict: nat, tone: nat, elements: seq<nat>)

  /** `[s for s in story_structures if s not in avoid]`, keeping each entry's pacing. */
  function StructuresWithout(xs: seq<Structure>, avoid: set<string>): (r: seq<Structure>)
    ensures forall s :: s in r <==> s in xs && s.name !in avoid
  {
    if |xs| == 0 then []
    else if xs[0].name in avoid then StructuresWithout(xs[1..], avoid)
    else [xs[0]] + StructuresWithout(xs[1..], avoid)
  }

  /** The item lists of the unique-element categories, in category order. */
  function GroupItems(groups: seq<ElementGroup>): (r: seq<seq<string>>)
    ensures |r| == |groups| && forall i :: 0 <= i < |groups| ==> r[i] == groups[i].items
  {
    seq(|groups|, i requires 0 <= i < |groups| => groups[i].items)
  }

  /** The selection of `generate_diverse_variant`.  Structure, archetype and
      flavour avoid their avoid-sets and raise `IndexError` when nothing is
      left; conflict and tone ignore every constraint. */
  function SelectVariant(c: Constraints, d: Draws): (r: Result<Variant>)
    ensures r.Raise? <==>
      (forall s :: s in Structures ==> s.name in c.avoidStructures)
      || (forall a :: a in Archetypes ==> a in c.avoidCharacters)
      || (forall f :: f in Flavors ==> f in c.avoidSettings)
    ensures r.Raise? ==> r.exc == IndexError
    ensures r.Ok? ==> var v := r.value;
      && Structure(v.structure, v.pacing) in Structures && v.structure !in c.avoidStructures
      && v.archetype in Archetypes && v.archetype !in c.avoidCharacters
      && v.flavor in Flavors && v.flavor !in c.avoidSettings
      && v.conflict in Conflicts && v.tone in Tones
      && |v.uniqueElements| == |UniqueElements|
      && (forall i :: 0 <= i < |UniqueElements| ==> v.uniqueElements[i] in UniqueElements[i].items)
  {
    var structures := StructuresWithout(Structures, c.avoidStructures);
    var archetypes := Without(Archetypes, c.avoidCharacters);
    var flavors := Without(Flavors, c.avoidSettings);
    assert structures != [] ==> structures[0] in structures;
    assert archetypes != [] ==> archetypes[0] in archetypes;
    assert flavors != [] ==> flavors[0] in flavors;
    SelectFrom(structures, archetypes, flavors, d)
  }

  /** The draws of `generate_diverse_variant` from the remaining structures,
      archetypes and flavours. */
  function SelectFrom(structures: seq<Structure>, archetypes: seq<string>, flavors: seq<string>, d: Draws)
    : (r: Result<Variant>)
    ensures r.Raise? <==> |structures| == 0 || |archetypes| == 0 || |flavors| == 0
    ensures r.Raise? ==> r.exc == IndexError
    ensures r.Ok? ==> var v := r.value;
      && Structure(v.structure, v.pacing) in structures && v.archetype in archetypes && v.flavor in flavors
      && v.conflict in Conflicts && v.tone in Tones
      && |v.uniqueElements| == |UniqueElements|
      && (forall i :: 0 <= i < |UniqueElements| ==> v.uniqueElements[i] in UniqueElements[i].items)
  {
    var st :- Pick(structures, d.structure);
    var ar :- Pick(archetypes, d.archetype);
    var fl :- Pick(flavors, d.flavor);
    var co := Conflicts[d.conflict % |Conflicts|];
    var to := Tones[d.tone % |Tones|];
    Ok(Variant(st.name, ar, fl, co, to, st.pacing, OneEach(GroupItems(UniqueElements), d.elements)))
  }

  /** The plot avoid-set is never consulted during selection. */
  lemma AvoidPlotsIgnored(c: Constraints, plots: set<string>, d: Draws)
    ensures SelectVariant(c.(avoidPlots := plots), d) == SelectVariant(c, d)
  {
  }

  /** The draws `d` make the selection succeed with structure `name`. */
  predicate ChoosesStructure(c: Constraints, d: Draws, name: string) {
    var r := SelectVariant(c, d);
    r.Ok? && r.value.structure == name
  }

  /** Every structure outside the avoid-set is chosen by some draw, as long as
      an archetype and a flavour remain available. */
  lemma EveryAvailableStructureReachable(c: Constraints, s: Structure, a: string, f: string) returns (d: Draws)
    requires s in Structures && s.name !in c.avoidStructures
    requires a in Archetypes && a !in c.avoidCharacters
    requires f in Flavors && f !in c.avoidSettings
    ensures ChoosesStructure(c, d, s.name)
  {
    var xs := StructuresWithout(Structures, c.avoidStructures);
    assert s in xs;
    var i :| 0 <= i < |xs| && xs[i] == s;
    d := Draws(i, 0, 0, 0, 0, []);
    PickCovers(xs, i);
    var archetypes := Without(Archetypes, c.avoidCharacters);
    var flavors := Without(Flavors, c.avoidSettings);
    assert a in archetypes && f in flavors;
    assert Pick(archetypes, 0).Ok? && Pick(flavors, 0).Ok?;
    var r := SelectVariant(c, d);
    assert r.value.structure == Pick(xs, d.structure).value.name;
    assert ChoosesStructure(c, d, s.name);
  }

  /** The four elements a history record keeps. */
  datatype Elements = Elements(structure: string, archetype: string, flavor: string, conflict: string)

  /** One `generation_history` entry (the hash id is not modelled). */
  datatype Record = Record(timestamp: int, elements: Elements)

  const HistoryLimit := 100
  const HistoryKeep := 50

  /** `_record_generation`: append, then keep the newest 50 once over 100. */
  function RecordGeneration(h: seq<Record>, v: Variant, now: int): (r: seq<Record>)
    ensures 0 < |r| <= |h| + 1
    ensures r[|r| - 1] == Record(now, Elements(v.structure, v.archetype, v.flavor, v.conflict))
    ensures r == (h + [r[|r| - 1]])[|h| + 1 - |r|..]
    ensures |h| < HistoryLimit ==> r == h + [r[|r| - 1]]
    ensures |h| >= HistoryLimit ==> |r| == HistoryKeep
    ensures |h| <= HistoryLimit ==> |r| <= HistoryLimit
  {
    var h' := h + [Record(now, Elements(v.structure, v.archetype, v.flavor, v.conflict))];
    if |h'| > HistoryLimit then h'[|h'| - HistoryKeep..] else h'
  }

  /** The generator's mutable state: the generation history. */
  datatype Enhancer = Enhancer(history: seq<Record>)

  /** `generate_diverse_variant`: select, then record.  A raising selection
      leaves the history untouched. */
  function GenerateDiverseVariant(e: Enhancer, c: Constraints, d: Draws, now: int): (r: (Result<Variant>, Enhancer))
    ensures r.0 == SelectVariant(c, d)
    ensures r.0.Raise? ==> r.1 == e
    ensures r.0.Ok? ==> r.1.history == RecordGeneration(e.history, r.0.value, now)
  {
    match SelectVariant(c, d)
    case Raise(x) => (Raise(x), e)
    case Ok(v) => (Ok(v), Enhancer(RecordGeneration(e.history, v, now)))
  }

  /** The history never exceeds 100 records, whatever sequence of generations runs. */
  lemma HistoryBounded(e: Enhancer, c: Constraints, d: Draws, now: int)
    requires |e.history| <= HistoryLimit
    ensures |GenerateDiverseVariant(e, c, d, now).1.history| <= HistoryLimit
  {
  }

  /** `recent_count` after the `len(history) < recent_count` adjustment. */
  function EffectiveCount(h: seq<Record>, recentCount: int): (n: int)
    ensures n <= |h|
    ensures recentCount <= |h| ==> n == recentCount
  {
    if |h| < recentCount then |h| else recentCount
  }

  /** `generation_history[-recent_count:]` after the adjustment: the last
      `min(n, len)` records for a positive count, the whole history for 0 (the
      `[-0:]` slice), and the history minus its first `-n` records for a
      negative count. */
  function Window(h: seq<Record>, recentCount: int): (w: seq<Record>)
    ensures |w| <= |h| && w == h[|h| - |w|..]
    ensures recentCount > 0 ==> |w| == (if recentCount < |h| then recentCount else |h|)
    ensures recentCount == 0 ==> w == h
    ensures recentCount < 0 ==> |w| == (if -recentCount < |h| then |h| + recentCount else 0)
  {
    PySuffix(h, EffectiveCount(h, recentCount))
  }

  function StructuresOf(w: seq<Record>): (r: seq<string>)
    ensures |r| == |w| && forall i :: 0 <= i < |w| ==> r[i] == w[i].elements.structure
  {
    seq(|w|, i requires 0 <= i < |w| => w[i].elements.structure)
  }

  function ArchetypesOf(w: seq<Record>): (r: seq<string>)
    ensures |r| == |w| && forall i :: 0 <= i < |w| ==> r[i] == w[i].elements.archetype
  {
    seq(|w|, i requires 0 <= i < |w| => w[i].elements.archetype)
  }

  function FlavorsOf(w: seq<Record>): (r: seq<string>)
    ensures |r| == |w| && forall i :: 0 <= i < |w| ==> r[i] == w[i].elements.flavor
  {
    seq(|w|, i requires 0 <= i < |w| => w[i].elements.flavor)
  }

  function ConflictsOf(w: seq<Record>): (r: seq<string>)
    ensures |r| == |w| && forall i :: 0 <= i < |w| ==> r[i] == w[i].elements.conflict
  {
    seq(|w|, i requires 0 <= i < |w| => w[i].elements.conflict)
  }

  /** The four frequency dictionaries of `analyze_diversity`. */
  datatype Frequencies = Frequencies(
    structures: Freq<string>,
    archetypes: Freq<string>,
    flavors: Freq<string>,
    conflicts: Freq<string>)

  function CountFrequencies(w: seq<Record>): (f: Frequencies)
    ensures IsTallyOf(f.structures, StructuresOf(w)) && Total(f.structures) == |w|
    ensures IsTallyOf(f.archetypes, ArchetypesOf(w)) && Total(f.archetypes) == |w|
    ensures IsTallyOf(f.flavors, FlavorsOf(w)) && Total(f.flavors) == |w|
    ensures IsTallyOf(f.conflicts, ConflictsOf(w)) && Total(f.conflicts) == |w|
  {
    TallyCorrect(StructuresOf(w));
    TallyCorrect(ArchetypesOf(w));
    TallyCorrect(FlavorsOf(w));
    TallyCorrect(ConflictsOf(w));
    Frequencies(Tally(StructuresOf(w)), Tally(ArchetypesOf(w)), Tally(FlavorsOf(w)), Tally(ConflictsOf(w)))
  }

  /** For a positive count every frequency dictionary sums to min(count, len). */
  lemma FrequenciesSumToWindow(h: seq<Record>, recentCount: int)
    requires recentCount > 0
    ensures var f := CountFrequencies(Window(h, recentCount));
      var n := if recentCount < |h| then recentCount else |h|;
      Total(f.structures) == n && Total(f.archetypes) == n
      && Total(f.flavors) == n && Total(f.conflicts) == n
  {
  }

  /** `_calculate_diversity_score`.  The source evaluates `p.bit_length()` on
      the float `p = count / total_uses`; floats have no `bit_length`, so the
      first non-empty dictionary raises `AttributeError`. */
  function DiversityScore(dicts: seq<Freq<string>>): (r: Result<real>)
    ensures r.Ok? <==> |dicts| > 0 && forall i :: 0 <= i < |dicts| ==> |dicts[i]| == 0
    ensures r.Ok? ==> r.value == 0.0
    ensures (exists i :: 0 <= i < |dicts| && |dicts[i]| > 0) ==> r == Raise(AttributeError)
  {
    if |dicts| == 0 then Raise(ZeroDivisionError) else ScoreLoop(dicts, 0, 0.0)
  }

  /** The loop of `_calculate_diversity_score` from dictionary `i` on. */
  function ScoreLoop(dicts: seq<Freq<string>>, i: nat, total: real): (r: Result<real>)
    requires 0 < |dicts| && i <= |dicts|
    ensures r.Ok? <==> forall j :: i <= j < |dicts| ==> |dicts[j]| == 0
    ensures r.Ok? ==> r.value == total / |dicts| as real
    ensures r.Raise? ==> r.exc == AttributeError
    decreases |dicts| - i
  {
    if i == |dicts| then Ok(total / |dicts| as real)
    else if |dicts[i]| == 0 then ScoreLoop(dicts, i + 1, total)
    else Raise(AttributeError)
  }

  /** A recommendation of `_generate_diversity_recommendations`. */
  datatype Recommendation =
    | Reduce(category: string, value: string)
    | TryUnused(structures: seq<string>)

  /** The text the source emits for a recommendation. */
  function Render(r: Recommendation): string {
    match r
    case Reduce(c, v) => "建议减少使用" + c + "中的'" + v + "'，尝试其他选项"
    case TryUnused(ns) => "建议尝试这些未使用的故事结构：" + Text.Join(", ", ns)
  }

  /** A value is overused when its count exceeds half of all uses. */
  predicate Overused(m: Freq<string>) {
    |m| > 0 && 2 * MaxCount(m) > Total(m)
  }

  function ReduceFor(category: string, m: Freq<string>): (r: seq<Recommendation>)
    ensures |r| <= 1
    ensures |r| == 1 <==> Overused(m)
    ensures |r| == 1 ==>
      && r[0].Reduce? && r[0].category == category
      && (exists i :: 0 <= i < |m| && m[i] == (r[0].value, MaxCount(m))
           && forall j :: 0 <= j < i ==> m[j].1 < MaxCount(m))
  {
    if Overused(m) then
      var k := FirstWithCount(m, MaxCount(m));
      [Reduce(category, k)]
    else []
  }

  /** The structures absent from the structure frequency dictionary, taken in
      catalogue order (the source takes `list(set)[:3]`, whose order Python
      leaves unspecified). */
  function UnusedStructures(f: Frequencies): (r: seq<string>)
    ensures forall s :: s in r <==> s in StructureNames && s !in Keys(f.structures)
  {
    Without(StructureNames, set k | k in Keys(f.structures))
  }

  /** The reduce recommendations for categories `cats` with frequency
      dictionaries `dicts`, in category order: one for each overused category. */
  function ReduceEach(cats: seq<string>, dicts: seq<Freq<string>>): (r: seq<Recommendation>)
    requires |cats| == |dicts|
    requires forall i, j :: 0 <= i < j < |cats| ==> cats[i] != cats[j]
    ensures |r| <= |cats|
    ensures forall x :: x in r ==> x.Reduce? && x.category in cats
    ensures forall k :: 0 <= k < |cats| ==> ((exists v :: Reduce(cats[k], v) in r) <==> Overused(dicts[k]))
  {
    if |cats| == 0 then []
    else
      var head := ReduceFor(cats[0], dicts[0]);
      var rest := ReduceEach(cats[1..], dicts[1..]);
      assert cats[0] !in cats[1..];
      forall k | 0 <= k < |cats|
        ensures (exists v :: Reduce(cats[k], v) in head + rest) <==> Overused(dicts[k])
      {
        if k == 0 {
          if Overused(dicts[0]) {
            assert head[0] in head + rest;
          }
        } else {
          assert cats[k] == cats[1..][k - 1];
          if Overused(dicts[k]) {
            var v :| Reduce(cats[k], v) in rest;
            assert Reduce(cats[k], v) in head + rest;
          }
        }
      }
      head + rest
  }

  const CategoryNames: seq<string> := ["故事结构", "角色原型", "世界风味", "冲突类型"]

  /** The four dictionaries in the order the recommendations visit them. */
  function Tables(f: Frequencies): seq<Freq<string>> {
    [f.structures, f.archetypes, f.flavors, f.conflicts]
  }

  /** The closing "try an unused structure" recommendation, present when
      some catalogued structure has not been used, naming at most three. */
  function UnusedTail(f: Frequencies): (r: seq<Recommendation>)
    ensures |r| <= 1
    ensures |r| == 1 <==> exists s :: s in StructureNames && s !in Keys(f.structures)
    ensures forall x :: x in r ==>
      x.TryUnused? && 0 < |x.structures| <= 3 && forall s :: s in x.structures ==> s in StructureNames && s !in Keys(f.structures)
  {
    var unused := UnusedStructures(f);
    assert unused != [] ==> unused[0] in StructureNames && unused[0] !in Keys(f.structures);
    if |unused| > 0 then [TryUnused(Take(unused, 3))] else []
  }

  /** `_generate_diversity_recommendations`: one reduce recommendation per
      overused category, in category order, then at most three unused
      structures when any structure is unused. */
  function Recommendations(f: Frequencies): (r: seq<Recommendation>)
    ensures |r| <= 5
    ensures forall k :: 0 <= k < 4 ==> ((exists v :: Reduce(CategoryNames[k], v) in r) <==> Overused(Tables(f)[k]))
    ensures (exists x :: x in r && x.TryUnused?) <==> exists s :: s in StructureNames && s !in Keys(f.structures)
    ensures forall x :: x in r && x.TryUnused? ==>
      0 < |x.structures| <= 3 && forall s :: s in x.structures ==> s in StructureNames && s !in Keys(f.structures)
  {
    var reduce := ReduceEach(CategoryNames, Tables(f));
    var tail := UnusedTail(f);
    assert forall x :: x in reduce + tail && x.TryUnused? ==> x in tail;
    assert forall k, v :: 0 <= k < 4 && Reduce(CategoryNames[k], v) in reduce + tail ==> Reduce(CategoryNames[k], v) in reduce;
    assert |tail| == 1 ==> tail[0] in reduce + tail;
    reduce + tail
  }

  /** The dictionary `analyze_diversity` returns. */
  datatype Analysis = Analysis(
    score: real,
    recentCount: int,
    frequencies: Frequencies,
    recommendations: seq<Recommendation>)

  /** `analyze_diversity(recent_count)`.  Because the score raises on any
      non-empty dictionary, the analysis only returns for an empty window:
      an empty history, or a negative count that drops every record. */
  function AnalyzeDiversity(h: seq<Record>, recentCount: int): (r: Result<Analysis>)
    ensures r.Ok? <==> |Window(h, recentCount)| == 0
    ensures r.Raise? ==> r.exc == AttributeError
    ensures r.Ok? ==> r.value.score == 0.0 && r.value.recentCount == EffectiveCount(h, recentCount)
    ensures r.Ok? ==> r.value.frequencies == Frequencies([], [], [], [])
  {
    var w := Window(h, recentCount);
    var f := CountFrequencies(w);
    var score :- DiversityScore(Tables(f));
    Ok(Analysis(score, EffectiveCount(h, recentCount), f, Recommendations(f)))
  }

  /** A non-empty history with the default count of 10 always raises. */
  lemma AnalyzeNonEmptyRaises(h: seq<Record>)
    requires |h| > 0
    ensures AnalyzeDiversity(h, 10) == Raise(AttributeError)
    ensures AnalyzeDiversity(h, 0) == Raise(AttributeError)
  {
  }

  /** `get_avoidance_constraints(recent_count)`: the value sets of the window. */
  function AvoidanceConstraints(h: seq<Record>, recentCount: int): (c: Constraints)
    ensures var w := Window(h, recentCount);
      && (forall s :: s in c.avoidStructures <==> exists i :: 0 <= i < |w| && w[i].elements.structure == s)
      && (forall a :: a in c.avoidCharacters <==> exists i :: 0 <= i < |w| && w[i].elements.archetype == a)
      && (forall f :: f in c.avoidSettings <==> exists i :: 0 <= i < |w| && w[i].elements.flavor == f)
      && (forall p :: p in c.avoidPlots <==> exists i :: 0 <= i < |w| && w[i].elements.conflict == p)
    ensures c.requiredUniqueness == 0.8
  {
    var w := Window(h, recentCount);
    Constraints(ArchetypeSet(w), ConflictSet(w), FlavorSet(w), StructureSet(w), 0.8)
  }

  function StructureSet(w: seq<Record>): (r: set<string>)
    ensures forall s :: s in r <==> exists i :: 0 <= i < |w| && w[i].elements.structure == s
  {
    set i | 0 <= i < |w| :: w[i].elements.structure
  }

  function ArchetypeSet(w: seq<Record>): (r: set<string>)
    ensures forall a :: a in r <==> exists i :: 0 <= i < |w| && w[i].elements.archetype == a
  {
    set i | 0 <= i < |w| :: w[i].elements.archetype
  }

  function FlavorSet(w: seq<Record>): (r: set<string>)
    ensures forall f :: f in r <==> exists i :: 0 <= i < |w| && w[i].elements.flavor == f
  {
    set i | 0 <= i < |w| :: w[i].elements.flavor
  }

  function ConflictSet(w: seq<Record>): (r: set<string>)
    ensures forall p :: p in r <==> exists i :: 0 <= i < |w| && w[i].elements.conflict == p
  {
    set i | 0 <= i < |w| :: w[i].elements.conflict
  }

  /** A variant selected under the constraints of the last `n` records repeats
      none of their structures, archetypes or flavours. */
  lemma AvoidanceHonoured(h: seq<Record>, n: int, d: Draws)
    ensures var r := SelectVariant(AvoidanceConstraints(h, n), d);
      r.Ok? ==> forall rec :: rec in Window(h, n) ==>
        rec.elements.structure != r.value.structure
        && rec.elements.archetype != r.value.archetype
        && rec.elements.flavor != r.value.flavor
  {
    WindowAvoided(h, n);
  }

  /** Every record of the window has its values in the avoid-sets. */
  lemma WindowAvoided(h: seq<Record>, n: int)
    ensures var c := AvoidanceConstraints(h, n);
      forall rec :: rec in Window(h, n) ==>
        && rec.elements.structure in c.avoidStructures
        && rec.elements.archetype in c.avoidCharacters
        && rec.elements.flavor in c.avoidSettings
  {
    var w := Window(h, n);
    forall rec | rec in w
      ensures rec.elements.structure in StructureSet(w)
      ensures rec.elements.archetype in ArchetypeSet(w)
      ensures rec.elements.flavor in FlavorSet(w)
    {
      var i :| 0 <= i < |w| && w[i] == rec;
    }
  }


  /** When the window has used every structure there is no fallback: the
      selection raises. */
  lemma ExhaustedStructuresRaise(h: seq<Record>, n: int, d: Draws)
    requires forall s :: s in Structures ==> exists rec :: rec in Window(h, n) && rec.elements.structure == s.name
    ensures SelectVariant(AvoidanceConstraints(h, n), d) == Raise(IndexError)
  {
    var w := Window(h, n);
    var c := AvoidanceConstraints(h, n);
    forall s | s in Structures
      ensures s.name in c.avoidStructures
    {
      var rec :| rec in w && rec.elements.structure == s.name;
      var i :| 0 <= i < |w| && w[i] == rec;
    }
    assert SelectVariant(c, d).Raise?;
  }

  /** The parameters `DiversityEnhancerTool.execute` reads. */
  datatype ToolParams = ToolParams(
    action: Option<string>,
    theme: Option<string>,
    avoidElements: Option<map<string, seq<string>>>,
    recentCount: Option<int>)

  /** The dictionaries `DiversityEnhancerTool.execute` returns. */
  datatype ToolOutput =
    | VariantOut(variant: Variant, theme: string, constraintsApplied: bool)
    | AnalysisOut(analysis: Analysis)
    | ConstraintsOut(structures: set<string>, archetypes: set<string>, flavors: set<string>, conflicts: set<string>)
    | ErrorOut(message: string)

  function ListOf(m: map<string, seq<string>>, key: string): seq<string> {
    if key in m then m[key] else []
  }

  function AsSet(xs: seq<string>): (s: set<string>)
    ensures forall x :: x in s <==> x in xs
  {
    set x | x in xs
  }

  /** The `generate_variant` action: the caller's avoid lists become a
      constraint set and the variant is generated against it. */
  function GenerateAction(e: Enhancer, p: ToolParams, d: Draws, now: int): (r: (Result<ToolOutput>, Enhancer))
    ensures r.0.Ok? ==>
      var avoid := p.avoidElements.GetOr(map[]);
      && r.0.value.VariantOut?
      && r.0.value.theme == p.theme.GetOr("修仙")
      && r.0.value.constraintsApplied == (|avoid| > 0)
      && r.0.value.variant.structure !in ListOf(avoid, "structures")
      && r.0.value.variant.archetype !in ListOf(avoid, "archetypes")
      && r.0.value.variant.flavor !in ListOf(avoid, "flavors")
      && |r.1.history| > 0
      && r.1.history[|r.1.history| - 1].elements.structure == r.0.value.variant.structure
  {
    var theme := p.theme.GetOr("修仙");
    var avoid := p.avoidElements.GetOr(map[]);
    var c := Constraints(
      AsSet(ListOf(avoid, "archetypes")),
      AsSet(ListOf(avoid, "conflicts")),
      AsSet(ListOf(avoid, "flavors")),
      AsSet(ListOf(avoid, "structures")),
      0.7);
    var (v, e') := GenerateDiverseVariant(e, c, d, now);
    (if v.Ok? then Ok(VariantOut(v.value, theme, |avoid| > 0)) else Raise(v.exc), e')
  }

  /** `DiversityEnhancerTool.execute`: dispatch on `action`. */
  function Execute(e: Enhancer, p: ToolParams, d: Draws, now: int): (r: (Result<ToolOutput>, Enhancer))
    ensures p.action != Some("generate_variant") ==> r.1 == e
    ensures p.action !in {Some("generate_variant"), Some("analyze_diversity"), Some("get_constraints")} ==>
      r.0 == Ok(ErrorOut("不支持的操作类型"))
    ensures p.action == Some("generate_variant") && r.0.Ok? ==>
      var avoid := p.avoidElements.GetOr(map[]);
      && r.0.value.VariantOut?
      && r.0.value.theme == p.theme.GetOr("修仙")
      && r.0.value.constraintsApplied == (|avoid| > 0)
      && r.0.value.variant.structure !in ListOf(avoid, "structures")
      && r.0.value.variant.archetype !in ListOf(avoid, "archetypes")
      && r.0.value.variant.flavor !in ListOf(avoid, "flavors")
      && |r.1.history| > 0
      && r.1.history[|r.1.history| - 1].elements.structure == r.0.value.variant.structure
    ensures p.action == Some("analyze_diversity") ==>
      r.0 == (var a := AnalyzeDiversity(e.history, p.recentCount.GetOr(10));
              if a.Ok? then Ok(AnalysisOut(a.value)) else Raise(a.exc))
    ensures p.action == Some("get_constraints") ==>
      var c := AvoidanceConstraints(e.history, p.recentCount.GetOr(5));
      r.0 == Ok(ConstraintsOut(c.avoidStructures, c.avoidCharacters, c.avoidSettings, c.avoidPlots))
  {
    if p.action == Some("generate_variant") then
      GenerateAction(e, p, d, now)
    else if p.action == Some("analyze_diversity") then
      var a := AnalyzeDiversity(e.history, p.recentCount.GetOr(10));
      (if a.Ok? then Ok(AnalysisOut(a.value)) else Raise(a.exc), e)
    else if p.action == Some("get_constraints") then
      var c := AvoidanceConstraints(e.history, p.recentCount.GetOr(5));
      (Ok(ConstraintsOut(c.avoidStructures, c.avoidCharacters, c.avoidSettings, c.avoidPlots)), e)
    else
      (Ok(ErrorOut("不支持的操作类型")), e)
  }
}
