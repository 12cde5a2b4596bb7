/** The quality analyzer: five rule-based scorers (plot, characters,
    writing, world building, pacing) over the novel's JSON data, their mean,
    the report of strengths, weaknesses and recommendations, and the tool
    entry point that keeps only the metrics matching the requested focus
    areas.

    Scores are Python integers clamped to [0, 100]; the mean is an exact
    real.  A value of the wrong type makes the scorers raise the exception
    Python raises on it (`.get` on a non-dictionary, iteration of a number,
    arithmetic or ordering on a non-number). */
module QualityAnalyzer {
  import opened Wrappers
  import opened Dicts
  import opened Json
  import Seqs
  import Text

  datatype Metric = Metric(name: string, score: int, description: string, suggestions: seq<string>)

  /** The report; the recommendations are a set because the source removes
      duplicates through `set`, which leaves their order unspecified. */
  datatype Report = Report(overall: real, metrics: seq<Metric>, strengths: seq<string>,
                           weaknesses: seq<string>, recommendations: set<string>)

  /** `max(0, min(100, score))`. */
  function ClampScore(s: int): (r: int)
    ensures 0 <= r <= 100
    ensures 0 <= s <= 100 ==> r == s
    ensures s < 0 ==> r == 0
  {
    if s < 0 then 0 else if s > 100 then 100 else s
  }

  /** A metric with its score clamped; a scorer with nothing to suggest
      offers its word of praise instead. */
  function Finish(name: string, score: int, description: string, notes: seq<string>,
                  praise: string): (m: Metric)
    ensures m.name == name && m.score == ClampScore(score)
    ensures notes == [] ==> m.suggestions == [praise]
    ensures notes != [] ==> m.suggestions == notes
    ensures praise !in notes ==> (m.suggestions == [praise] <==> notes == [])
  {
    assert notes == [praise] ==> praise in notes;
    Metric(name, ClampScore(score), description, if notes == [] then [praise] else notes)
  }

  // ---------------------------------------------------------------------
  // Reading the data

  /** Every item is a dictionary. */
  predicate AllObj(items: seq<Value>) {
    forall k :: 0 <= k < |items| ==> items[k].Obj?
  }

  /** `not d.get(key)`. */
  function Lacks(d: Value, key: string): (r: Result<bool>)
    ensures r.Raise? <==> !d.Obj?
    ensures r.Raise? ==> r.exc == AttributeError
    ensures d.Obj? ==> r == Ok(!Truthy(Field(d.fields, key, Null)))
  {
    var v :- GetOr(d, key, Null);
    Ok(!Truthy(v))
  }

  /** `any(not c.get(key) for c in items)`: the scan stops at the first
      item lacking `key`, and raises at a non-dictionary met before it. */
  function AnyLacks(items: seq<Value>, key: string): (r: Result<bool>)
    ensures AllObj(items) ==> r == Ok(exists k :: 0 <= k < |items| && !Truthy(Field(items[k].fields, key, Null)))
    ensures r.Raise? ==> r.exc == AttributeError && !AllObj(items)
  {
    if |items| == 0 then Ok(false)
    else
      var lacks :- Lacks(items[0], key);
      assert forall k :: 1 <= k < |items| ==> items[k] == items[1..][k - 1];
      if lacks then Ok(true) else AnyLacks(items[1..], key)
  }

  /** Python integers, `bool` included, as the scorers add and compare them. */
  predicate Numeric(v: Value) {
    v.Int? || v.Bool?
  }

  function NumVal(v: Value): int
    requires Numeric(v)
  {
    if v.Int? then v.i else if v.b then 1 else 0
  }

  predicate AllNumeric(vs: seq<Value>) {
    forall k :: 0 <= k < |vs| ==> Numeric(vs[k])
  }

  // ---------------------------------------------------------------------
  // The five scorers

  const PlotName := "情节质量"
  const CharacterName := "角色质量"
  const WritingName := "文笔质量"
  const WorldName := "世界构建"
  const PacingName := "节奏控制"

  const NoConflictNote := "需要明确的中心冲突"
  const NoClimaxNote := "需要设置高潮部分"
  const StallNote := "确保每章都推进情节发展"
  const PlotPraise := "情节结构良好，继续保持"

  /** The plot metric from its three findings: 70, less 15 without a
      central conflict, 10 without a climax and 10 when a chapter stalls. */
  function PlotFrom(noConflict: bool, noClimax: bool, stalls: bool): (m: Metric)
    ensures m.name == PlotName && 35 <= m.score <= 70
    ensures m.score == 70 <==> m.suggestions == [PlotPraise]
    ensures forall n :: n in m.suggestions ==> Noted(n)
  {
    assert NoConflictNote[0] != PlotPraise[0] && NoClimaxNote[0] != PlotPraise[0] && StallNote[0] != PlotPraise[0];
    var notes := (if noConflict then [NoConflictNote] else []) + (if noClimax then [NoClimaxNote] else [])
                 + (if stalls then [StallNote] else []);
    assert PlotPraise !in notes;
    Finish(PlotName,
           70 - (if noConflict then 15 else 0) - (if noClimax then 10 else 0) - (if stalls then 10 else 0),
           PlotAbout, notes, PlotPraise)
  }

  const PlotAbout := "故事情节的完整性、连贯性和吸引力"

  /** `_analyze_plot_quality`: the outline's central conflict and climax,
      and, when there are several chapters, whether one of them does not
      advance the plot. */
  function Plot(data: Value): (r: Result<Metric>)
    ensures !data.Obj? ==> r == Raise(AttributeError)
    ensures r.Ok? ==> r.value.name == PlotName && 35 <= r.value.score <= 70
    ensures r.Ok? ==> (r.value.score == 70 <==> r.value.suggestions == [PlotPraise])
    ensures AllNoted(r)
  {
    var outline :- GetOr(data, "outline", Obj([]));
    var chapters := Field(data.fields, "chapters", List([]));
    var noConflict :- Lacks(outline, "central_conflict");
    var noClimax := !Truthy(Field(outline.fields, "climax", Null));
    var n :- Len(chapters);
    var stalls :- if n > 1 then AnyLacks(Iterate(chapters).value, "plot_advancement") else Ok(false);
    Ok(PlotFrom(noConflict, noClimax, stalls))
  }

  /** The shape the scorers expect of the novel data: a dictionary whose
      outline and world setting are dictionaries and whose characters and
      chapters are lists of dictionaries, with numeric word targets and
      tension levels. */
  predicate Shaped(data: Value) {
    && data.Obj?
    && Field(data.fields, "outline", Obj([])).Obj?
    && Field(data.fields, "world_setting", Obj([])).Obj?
    && Field(data.fields, "characters", List([])).List?
    && AllObj(Field(data.fields, "characters", List([])).items)
    && Field(data.fields, "chapters", List([])).List?
    && AllObj(Chapters(data))
    && forall k :: 0 <= k < |Chapters(data)| ==>
         && Numeric(Field(Chapters(data)[k].fields, "word_count_target", Int(0)))
         && Numeric(Field(Chapters(data)[k].fields, "tension_level", Int(5)))
  }

  /** The chapter list of shaped data. */
  function Chapters(data: Value): seq<Value>
    requires data.Obj? && Field(data.fields, "chapters", List([])).List?
  {
    Field(data.fields, "chapters", List([])).items
  }

  /** On shaped data the plot score is the sum of its deductions. */
  lemma PlotScore(data: Value)
    requires Shaped(data)
    ensures Plot(data).Ok?
    ensures var outline := Field(data.fields, "outline", Obj([]));
            var chapters := Chapters(data);
            Plot(data) == Ok(PlotFrom(!Truthy(Field(outline.fields, "central_conflict", Null)),
                                      !Truthy(Field(outline.fields, "climax", Null)),
                                      |chapters| > 1 && exists k :: 0 <= k < |chapters| &&
                                                          !Truthy(Field(chapters[k].fields, "plot_advancement", Null))))
  {
    var outline := Field(data.fields, "outline", Obj([]));
    var chapters := Field(data.fields, "chapters", List([]));
    assert GetOr(data, "outline", Obj([])) == Ok(outline);
    assert Len(chapters) == Ok(|chapters.items|) && Iterate(chapters) == Ok(chapters.items);
  }

  const NoCastNote := "需要创建角色"
  const NoLeadNote := "需要明确的主角"
  const SketchyNote := "完善角色设定信息"
  const CharacterPraise := "角色设定完整，继续深化"

  /** A character lacking a name, a personality or a background. */
  predicate Incomplete(c: Value) {
    c.Obj? && (!Truthy(Field(c.fields, "name", Null)) || !Truthy(Field(c.fields, "personality", Null))
               || !Truthy(Field(c.fields, "background", Null)))
  }

  /** A character of type 主角. */
  predicate Lead(c: Value) {
    c.Obj? && Field(c.fields, "type", Null) == Str("主角")
  }

  const CharacterAbout := "角色的丰满程度、个性特征和发展弧线"

  /** The character metric of a non-empty cast: 75, less 20 without a
      protagonist and 5 per incomplete character, floored at 0. */
  function CastFrom(items: seq<Value>): (m: Metric)
    ensures m.name == CharacterName && 0 <= m.score <= 75
    ensures m.score == 75 <==> m.suggestions == [CharacterPraise]
    ensures forall n :: n in m.suggestions ==> Noted(n)
    ensures m.score == ClampScore(75 - (if exists k :: 0 <= k < |items| && Lead(items[k]) then 0 else 20)
                                     - 5 * |Seqs.Filter(items, Incomplete)|)
  {
    assert NoLeadNote[0] != CharacterPraise[0] && SketchyNote[0] != CharacterPraise[0];
    var lead := exists k :: 0 <= k < |items| && Lead(items[k]);
    var incomplete := |Seqs.Filter(items, Incomplete)|;
    var notes := (if lead then [] else [NoLeadNote]) + (if incomplete > 0 then [SketchyNote] else []);
    assert CharacterPraise !in notes;
    Finish(CharacterName, 75 - (if lead then 0 else 20) - 5 * incomplete, CharacterAbout, notes, CharacterPraise)
  }

  /** `_analyze_character_quality`: 30 without characters, otherwise the
      cast's score; a character that is not a dictionary raises. */
  function Characters(data: Value): (r: Result<Metric>)
    ensures !data.Obj? ==> r == Raise(AttributeError)
    ensures r.Ok? ==> r.value.name == CharacterName && 0 <= r.value.score <= 75
    ensures r.Ok? ==> (r.value.score == 75 <==> r.value.suggestions == [CharacterPraise])
    ensures AllNoted(r)
  {
    var characters :- GetOr(data, "characters", List([]));
    if !Truthy(characters) then
      assert NoCastNote[0] != CharacterPraise[0];
      Ok(Finish(CharacterName, 30, CharacterAbout, [NoCastNote], CharacterPraise))
    else
      var items :- Iterate(characters);
      if !AllObj(items) then Raise(AttributeError) else Ok(CastFrom(items))
  }

  /** On shaped data the character metric is the cast's, or 30 without
      characters. */
  lemma CharacterScore(data: Value)
    requires Shaped(data)
    ensures Characters(data).Ok?
    ensures var cs := Field(data.fields, "characters", List([])).items;
            cs != [] ==> Characters(data) == Ok(CastFrom(cs))
    ensures Field(data.fields, "characters", List([])).items == [] ==> Characters(data).value.score == 30
  {
  }

  const NoTextNote := "需要实际的文字内容进行分析"
  const ShortNote := "增加内容丰富度"
  const BareNote := "增加场景和情感描述"
  const WritingPraise := "文笔流畅，继续保持"
  const WordTarget := 10000

  /** Every item is a dictionary with a numeric word target. */
  predicate AllTargets(items: seq<Value>) {
    forall k :: 0 <= k < |items| ==> items[k].Obj? && Numeric(Field(items[k].fields, "word_count_target", Int(0)))
  }

  /** `sum(c.get("word_count_target", 0) for c in items)`: raises at the
      first item that is not a dictionary or whose target is not a number. */
  function SumTargets(items: seq<Value>): (r: Result<int>)
    ensures r.Raise? ==> r.exc == AttributeError || r.exc == TypeError
    ensures r.Raise? <==> !AllTargets(items)
  {
    if |items| == 0 then Ok(0)
    else
      var v :- GetOr(items[0], "word_count_target", Int(0));
      assert forall k :: 1 <= k < |items| ==> items[k] == items[1..][k - 1];
      if !Numeric(v) then Raise(TypeError)
      else
        var rest :- SumTargets(items[1..]);
        Ok(NumVal(v) + rest)
  }

  /** A chapter with a detailed summary. */
  predicate Described(c: Value) {
    c.Obj? && Truthy(Field(c.fields, "detailed_summary", Null))
  }

  const WritingAbout := "语言表达、描写技巧和文字的感染力"

  /** The writing metric of a non-empty chapter list: 80, less 10 when
      fewer than four in five chapters are described.  A word total below
      10000 adds a suggestion but costs nothing. */
  function TextFrom(items: seq<Value>, total: int): (m: Metric)
    ensures m.name == WritingName
    ensures m.score == if 5 * |Seqs.Filter(items, Described)| < 4 * |items| then 70 else 80
    ensures m.suggestions == [WritingPraise] ==> m.score == 80
    ensures total < WordTarget ==> ShortNote in m.suggestions
    ensures forall n :: n in m.suggestions ==> Noted(n)
  {
    assert ShortNote[2] != WritingPraise[2] && BareNote[2] != WritingPraise[2];
    var bare := 5 * |Seqs.Filter(items, Described)| < 4 * |items|;
    var notes := (if total < WordTarget then [ShortNote] else []) + (if bare then [BareNote] else []);
    assert WritingPraise !in notes;
    Finish(WritingName, 80 - (if bare then 10 else 0), WritingAbout, notes, WritingPraise)
  }

  /** `_analyze_writing_quality`: 40 without chapters, otherwise the
      chapters' score; the word targets are summed first, so a chapter that
      is not a dictionary or has a non-numeric target raises. */
  function Writing(data: Value): (r: Result<Metric>)
    ensures !data.Obj? ==> r == Raise(AttributeError)
    ensures r.Ok? ==> r.value.name == WritingName && r.value.score in {40, 70, 80}
    ensures r.Ok? && r.value.suggestions == [WritingPraise] ==> r.value.score == 80
    ensures AllNoted(r)
  {
    var chapters :- GetOr(data, "chapters", List([]));
    if !Truthy(chapters) then
      assert NoTextNote[0] != WritingPraise[0];
      Ok(Finish(WritingName, 40, WritingAbout, [NoTextNote], WritingPraise))
    else
      var items :- Iterate(chapters);
      var total :- SumTargets(items);
      Ok(TextFrom(items, total))
  }

  /** On shaped data the writing score is 40 without chapters and
      otherwise depends on the described chapters alone. */
  lemma WritingScore(data: Value)
    requires Shaped(data)
    ensures Writing(data).Ok?
    ensures var chs := Chapters(data);
            Writing(data).value.score ==
              if chs == [] then 40
              else if 5 * |Seqs.Filter(chs, Described)| < 4 * |chs| then 70 else 80
  {
    var chapters := Field(data.fields, "chapters", List([]));
    assert GetOr(data, "chapters", List([])) == Ok(chapters);
    if chapters.items != [] {
      assert Truthy(chapters) && Iterate(chapters) == Ok(chapters.items);
      assert SumTargets(chapters.items).Ok?;
      assert Writing(data) == Ok(TextFrom(chapters.items, SumTargets(chapters.items).value));
    }
  }

  const Required := ["geography", "culture", "power_system", "history"]
  const MissingPrefix := "补充世界设定："
  const SparseNote := "丰富世界设定的细节"
  const WorldPraise := "世界设定完善，具有独特性"

  /** A setting value that is a dictionary of more than three entries. */
  predicate Detailed(v: Value) {
    v.Obj? && |v.fields| > 3
  }

  /** The required elements the setting lacks, in their fixed order. */
  function Missing(setting: Dict<string, Value>): (ms: seq<string>)
    ensures forall e :: e in ms <==> e in Required && !Truthy(Field(setting, e, Null))
    ensures |ms| <= 4
  {
    Seqs.Filter(Required, (e: string) => !Truthy(Field(setting, e, Null)))
  }

  const WorldAbout := "世界观的完整性、独特性和内在逻辑"

  /** Fewer than half the setting's values are detailed dictionaries. */
  predicate Sparse(setting: Dict<string, Value>) {
    2 * |Seqs.Filter(Values(setting), Detailed)| < |setting|
  }

  /** The world notes: the missing elements, then sparseness. */
  function WorldNotes(missing: seq<string>, sparse: bool): (notes: seq<string>)
    ensures forall n :: n in notes ==> n == SparseNote || n == MissingPrefix + Text.Join(", ", missing)
    ensures (missing != [] ==> MissingPrefix + Text.Join(", ", missing) in notes) && (sparse ==> SparseNote in notes)
    ensures WorldPraise !in notes
  {
    var notes := (if missing != [] then [MissingPrefix + Text.Join(", ", missing)] else [])
                 + (if sparse then [SparseNote] else []);
    assert (MissingPrefix + Text.Join(", ", missing))[0] == MissingPrefix[0];
    assert SparseNote[0] != WorldPraise[0];
    notes
  }

  /** The world metric of a setting: 70, less 10 per missing required
      element and 10 for a sparse setting. */
  function SettingFrom(setting: Dict<string, Value>): (m: Metric)
    ensures m.name == WorldName && 20 <= m.score <= 70
    ensures m.score == 70 - 10 * |Missing(setting)| - (if Sparse(setting) then 10 else 0)
    ensures m.score == 70 <==> m.suggestions == [WorldPraise]
    ensures forall n :: n in m.suggestions ==> Noted(n)
  {
    var missing := Missing(setting);
    var notes := WorldNotes(missing, Sparse(setting));
    var m := Finish(WorldName, 70 - 10 * |missing| - (if Sparse(setting) then 10 else 0), WorldAbout, notes, WorldPraise);
    WorldNoted(m.suggestions, Text.Join(", ", missing));
    m
  }

  /** `_analyze_world_building_quality`: the setting's score; a setting
      that is not a dictionary raises. */
  function World(data: Value): (r: Result<Metric>)
    ensures !data.Obj? ==> r == Raise(AttributeError)
    ensures r.Ok? ==> r.value.name == WorldName && 20 <= r.value.score <= 70
    ensures r.Ok? ==> (r.value.score == 70 <==> r.value.suggestions == [WorldPraise])
    ensures AllNoted(r)
  {
    var setting :- GetOr(data, "world_setting", Obj([]));
    if !setting.Obj? then Raise(AttributeError) else Ok(SettingFrom(setting.fields))
  }

  /** An empty setting misses all four elements but is not sparse: it
      scores 30. */
  lemma EmptySetting()
    ensures SettingFrom([]).score == 30
  {
    MissingAll([]);
  }

  /** With no element present every required element is missing. */
  lemma MissingAll(setting: Dict<string, Value>)
    requires forall e :: e in Required ==> !Truthy(Field(setting, e, Null))
    ensures Missing(setting) == Required
  {
    Seqs.FilterAll(Required, (e: string) => !Truthy(Field(setting, e, Null)));
  }

  const NoChaptersNote := "需要章节内容进行节奏分析"
  const FlatNote := "增加节奏变化，避免单调"
  const NoPeakNote := "设置更强烈的高潮部分"
  const PacingPraise := "节奏控制良好，张弛有度"
  const PeakTension := 8

  /** `[c.get("tension_level", 5) for c in items]`. */
  function Levels(items: seq<Value>): (r: Result<seq<Value>>)
    ensures r.Raise? <==> !AllObj(items)
    ensures r.Raise? ==> r.exc == AttributeError
    ensures r.Ok? ==> |r.value| == |items|
    ensures r.Ok? ==> forall k :: 0 <= k < |items| ==> r.value[k] == Field(items[k].fields, "tension_level", Int(5))
  {
    if |items| == 0 then Ok([])
    else
      var v :- GetOr(items[0], "tension_level", Int(5));
      assert forall k :: 1 <= k < |items| ==> items[k] == items[1..][k - 1];
      var rest :- Levels(items[1..]);
      Ok([v] + rest)
  }

  /** `max(levels)` over numbers. */
  function Peak(levels: seq<Value>): (p: int)
    requires |levels| > 0 && AllNumeric(levels)
    ensures forall k :: 0 <= k < |levels| ==> NumVal(levels[k]) <= p
    ensures exists k :: 0 <= k < |levels| && NumVal(levels[k]) == p
  {
    if |levels| == 1 then NumVal(levels[0])
    else
      assert AllNumeric(levels[1..]);
      var rest := Peak(levels[1..]);
      assert forall k :: 1 <= k < |levels| ==> levels[k] == levels[1..][k - 1];
      if NumVal(levels[0]) >= rest then NumVal(levels[0]) else rest
  }

  /** `len(set(levels))` over numbers: `True` and `1` are one level. */
  function DistinctLevels(levels: seq<Value>): (n: nat)
    requires AllNumeric(levels)
    ensures n <= |levels|
  {
    SetImageBound(levels);
    |set k | 0 <= k < |levels| :: NumVal(levels[k])|
  }

  lemma {:induction false} SetImageBound(levels: seq<Value>)
    requires AllNumeric(levels)
    ensures |set k | 0 <= k < |levels| :: NumVal(levels[k])| <= |levels|
  {
    if |levels| > 0 {
      var init := levels[..|levels| - 1];
      SetImageBound(init);
      var s := set k | 0 <= k < |levels| :: NumVal(levels[k]);
      var t := set k | 0 <= k < |init| :: NumVal(init[k]);
      assert s == t + {NumVal(levels[|levels| - 1])} by {
        forall x | x in s ensures x in t + {NumVal(levels[|levels| - 1])} {
          var k :| 0 <= k < |levels| && NumVal(levels[k]) == x;
          if k < |init| {
            assert init[k] == levels[k];
          }
        }
        forall x | x in t ensures x in s {
          var k :| 0 <= k < |init| && NumVal(init[k]) == x;
          assert levels[k] == init[k];
        }
      }
    }
  }

  const PacingAbout := "故事节奏的变化和张弛有度"

  /** The pacing metric of the tension levels: 75, less 15 for fewer than
      three distinct levels and 10 when none reaches 8. */
  function TensionFrom(levels: seq<Value>): (m: Metric)
    requires |levels| > 0 && AllNumeric(levels)
    ensures m.name == PacingName && 50 <= m.score <= 75
    ensures m.score == 75 - (if DistinctLevels(levels) < 3 then 15 else 0) - (if Peak(levels) < PeakTension then 10 else 0)
    ensures m.score == 75 <==> m.suggestions == [PacingPraise]
    ensures forall n :: n in m.suggestions ==> Noted(n)
  {
    assert FlatNote[0] != PacingPraise[0] && NoPeakNote[0] != PacingPraise[0];
    var flat := DistinctLevels(levels) < 3;
    var low := Peak(levels) < PeakTension;
    var notes := (if flat then [FlatNote] else []) + (if low then [NoPeakNote] else []);
    assert PacingPraise !in notes;
    Finish(PacingName, 75 - (if flat then 15 else 0) - (if low then 10 else 0), PacingAbout, notes, PacingPraise)
  }

  /** `_analyze_pacing_quality`: 50 without chapters, otherwise the score
      of the tension levels.  A chapter that is not a dictionary raises
      AttributeError; a level that is not a number raises TypeError, from
      `set`, `max` or the comparison with 8. */
  function Pacing(data: Value): (r: Result<Metric>)
    ensures !data.Obj? ==> r == Raise(AttributeError)
    ensures r.Ok? ==> r.value.name == PacingName && 50 <= r.value.score <= 75
    ensures r.Ok? ==> (r.value.score == 75 <==> r.value.suggestions == [PacingPraise])
    ensures AllNoted(r)
  {
    var chapters :- GetOr(data, "chapters", List([]));
    if !Truthy(chapters) then
      assert NoChaptersNote[0] != PacingPraise[0];
      Ok(Finish(PacingName, 50, PacingAbout, [NoChaptersNote], PacingPraise))
    else
      var items :- Iterate(chapters);
      var levels :- Levels(items);
      if !AllNumeric(levels) then Raise(TypeError)
      else
        assert Len(chapters).value > 0;
        Ok(TensionFrom(levels))
  }

  /** On shaped data with chapters the pacing metric is that of the
      chapters' tension levels (5 where a chapter has none). */
  lemma PacingScore(data: Value)
    requires Shaped(data) && Chapters(data) != []
    ensures Levels(Chapters(data)).Ok? && AllNumeric(Levels(Chapters(data)).value)
    ensures Pacing(data) == Ok(TensionFrom(Levels(Chapters(data)).value))
  {
    var chapters := Field(data.fields, "chapters", List([]));
    assert GetOr(data, "chapters", List([])) == Ok(chapters);
    assert Truthy(chapters) && Iterate(chapters) == Ok(chapters.items);
    assert AllNumeric(Levels(chapters.items).value);
  }

  /** One or two tension levels are never three distinct ones, so a story
      of one or two chapters always loses 15 for flat pacing. */
  lemma ShortStoryFlat(levels: seq<Value>)
    requires 0 < |levels| < 3 && AllNumeric(levels)
    ensures TensionFrom(levels).score <= 60
    ensures FlatNote in TensionFrom(levels).suggestions
  {
  }

  // ---------------------------------------------------------------------
  // The report

  /** The sum of the scores. */
  function Total(ms: seq<Metric>): int {
    if |ms| == 0 then 0 else ms[0].score + Total(ms[1..])
  }

  /** `sum(m.score for m in ms) / len(ms)`. */
  function Mean(ms: seq<Metric>): (r: real)
    requires |ms| > 0
    ensures r * |ms| as real == Total(ms) as real
  {
    Total(ms) as real / |ms| as real
  }

  const Excels := "表现优秀"
  const Lags := "需要改进"

  const TopBand := "整体质量优秀，可以考虑投稿发表"
  const GoodBand := "质量良好，继续完善细节"
  const FairBand := "有一定基础，需要重点改进薄弱环节"
  const PoorBand := "需要全面提升，建议重新规划"

  /** The overall recommendation: from 85, from 70, from 50, or below. */
  function Band(overall: real): (b: string)
    ensures b in [TopBand, GoodBand, FairBand, PoorBand]
    ensures b == TopBand <==> overall >= 85.0
    ensures b == GoodBand <==> 70.0 <= overall < 85.0
    ensures b == FairBand <==> 50.0 <= overall < 70.0
    ensures b == PoorBand <==> overall < 50.0
  {
    assert TopBand[0] != PoorBand[0] && GoodBand[0] != TopBand[0] && GoodBand[0] != PoorBand[0]
      && FairBand[0] != TopBand[0] && FairBand[0] != PoorBand[0] && FairBand[0] != GoodBand[0];
    if overall >= 85.0 then TopBand
    else if overall >= 70.0 then GoodBand
    else if overall >= 50.0 then FairBand
    else PoorBand
  }

  /** The metric names with `suffix` appended, for the metrics `pick`
      accepts, in order. */
  function Flagged(ms: seq<Metric>, pick: Metric -> bool, suffix: string): (r: seq<string>)
    ensures forall s :: s in r <==> exists k :: 0 <= k < |ms| && pick(ms[k]) && s == ms[k].name + suffix
  {
    if |ms| == 0 then []
    else
      assert forall k :: 1 <= k < |ms| ==> ms[k] == ms[1..][k - 1];
      (if pick(ms[0]) then [ms[0].name + suffix] else []) + Flagged(ms[1..], pick, suffix)
  }

  /** Every metric's suggestions, in order. */
  function Notes(ms: seq<Metric>): (r: seq<string>)
    ensures forall s :: s in r <==> exists k :: 0 <= k < |ms| && s in ms[k].suggestions
  {
    if |ms| == 0 then []
    else
      assert forall k :: 1 <= k < |ms| ==> ms[k] == ms[1..][k - 1];
      ms[0].suggestions + Notes(ms[1..])
  }

  /** `_generate_quality_report`: a strength for every score of at least
      80, a weakness for every score below 60, and as recommendations every
      suggestion and the overall band, without repetition. */
  function MakeReport(overall: real, ms: seq<Metric>): (r: Report)
    ensures r.overall == overall && r.metrics == ms
    ensures forall s :: s in r.strengths <==> exists k :: 0 <= k < |ms| && ms[k].score >= 80 && s == ms[k].name + Excels
    ensures forall s :: s in r.weaknesses <==> exists k :: 0 <= k < |ms| && ms[k].score < 60 && s == ms[k].name + Lags
    ensures forall s :: s in r.recommendations <==> s == Band(overall) || exists k :: 0 <= k < |ms| && s in ms[k].suggestions
  {
    Report(overall, ms, Flagged(ms, (m: Metric) => m.score >= 80, Excels),
           Flagged(ms, (m: Metric) => m.score < 60, Lags),
           set s | s in Notes(ms) + [Band(overall)])
  }

  /** A scorer outcome whose score, if any, lies in [0, 100]. */
  predicate InRange(r: Result<Metric>) {
    r.Ok? ==> 0 <= r.value.score <= 100
  }

  /** The report of five scorer outcomes, or the first exception. */
  function Assemble(p: Result<Metric>, c: Result<Metric>, w: Result<Metric>, g: Result<Metric>,
                    t: Result<Metric>): (r: Result<Report>)
    requires InRange(p) && InRange(c) && InRange(w) && InRange(g) && InRange(t)
    requires AllNoted(p) && AllNoted(c) && AllNoted(w) && AllNoted(g) && AllNoted(t)
    ensures r.Raise? <==> p.Raise? || c.Raise? || w.Raise? || g.Raise? || t.Raise?
    ensures p.Raise? ==> r == Raise(p.exc)
    ensures r.Ok? ==> r.value.metrics == [p.value, c.value, w.value, g.value, t.value]
    ensures r.Ok? ==> r.value.overall * 5.0 == Total(r.value.metrics) as real
    ensures r.Ok? ==> forall m :: m in r.value.metrics ==> 0 <= m.score <= 100
    ensures r.Ok? ==> r.value == MakeReport(r.value.overall, r.value.metrics)
    ensures r.Ok? ==> forall m, n :: m in r.value.metrics && n in m.suggestions ==> Noted(n)
  {
    var p :- p;
    var c :- c;
    var w :- w;
    var g :- g;
    var t :- t;
    var ms := [p, c, w, g, t];
    Ok(MakeReport(Mean(ms), ms))
  }

  /** `analyze_novel_quality`: the five metrics in order, their mean and
      the report.  The first scorer that raises decides the outcome. */
  function Analyze(data: Value): (r: Result<Report>)
    ensures !data.Obj? ==> r == Raise(AttributeError)
    ensures r.Ok? ==> |r.value.metrics| == 5
    ensures r.Ok? ==> r.value.overall * 5.0 == Total(r.value.metrics) as real
    ensures r.Ok? ==> forall m :: m in r.value.metrics ==> 0 <= m.score <= 100
    ensures r.Ok? ==> r.value == MakeReport(r.value.overall, r.value.metrics)
    ensures r.Ok? ==> forall m, n :: m in r.value.metrics && n in m.suggestions ==> Noted(n)
  {
    Assemble(Plot(data), Characters(data), Writing(data), World(data), Pacing(data))
  }

  /** Shaped data always yields a report. */
  lemma ShapedAnalyzes(data: Value)
    requires Shaped(data)
    ensures Analyze(data).Ok?
  {
    PlotScore(data);
    CharacterScore(data);
    WritingScore(data);
    WorldShaped(data);
    if Chapters(data) != [] {
      PacingScore(data);
    }
  }

  lemma WorldShaped(data: Value)
    requires Shaped(data)
    ensures World(data).Ok?
  {
  }

  /** The five metrics come in a fixed order, and their caps (70, 75, 80,
      70, 75) hold the overall score to at most 74: the top band is never
      recommended and only the writing can be a strength. */
  lemma AnalyzeCeiling(data: Value)
    requires Analyze(data).Ok?
    ensures var ms := Analyze(data).value.metrics;
            |ms| == 5 && ms[0].name == PlotName && ms[1].name == CharacterName && ms[2].name == WritingName
            && ms[3].name == WorldName && ms[4].name == PacingName
    ensures 0.0 <= Analyze(data).value.overall <= 74.0
    ensures Band(Analyze(data).value.overall) != TopBand
    ensures forall s :: s in Analyze(data).value.strengths ==> s == WritingName + Excels
  {
    AssembleCeiling(Plot(data), Characters(data), Writing(data), World(data), Pacing(data));
  }

  /** Five outcomes named and capped as the scorers' are assemble into a
      report of those five metrics whose overall score stays below 75. */
  lemma AssembleCeiling(p: Result<Metric>, c: Result<Metric>, w: Result<Metric>, g: Result<Metric>,
                        t: Result<Metric>)
    requires InRange(p) && InRange(c) && InRange(w) && InRange(g) && InRange(t)
    requires AllNoted(p) && AllNoted(c) && AllNoted(w) && AllNoted(g) && AllNoted(t)
    requires p.Ok? ==> p.value.name == PlotName && p.value.score <= 70
    requires c.Ok? ==> c.value.name == CharacterName && c.value.score <= 75
    requires w.Ok? ==> w.value.name == WritingName && w.value.score <= 80
    requires g.Ok? ==> g.value.name == WorldName && g.value.score <= 70
    requires t.Ok? ==> t.value.name == PacingName && t.value.score <= 75
    ensures var r := Assemble(p, c, w, g, t);
            r.Ok? ==>
              && |r.value.metrics| == 5 && r.value.metrics[0].name == PlotName
              && r.value.metrics[1].name == CharacterName && r.value.metrics[2].name == WritingName
              && r.value.metrics[3].name == WorldName && r.value.metrics[4].name == PacingName
              && 0.0 <= r.value.overall <= 74.0
              && Band(r.value.overall) != TopBand
              && forall s :: s in r.value.strengths ==> s == WritingName + Excels
  {
    var r := Assemble(p, c, w, g, t);
    if r.Ok? {
      CappedReport(r.value);
    }
  }

  /** A report of five in-range metrics capped at 70, 75, 80, 70 and 75,
      the third being the writing. */
  lemma CappedReport(r: Report)
    requires r == MakeReport(r.overall, r.metrics) && |r.metrics| == 5
    requires r.overall * 5.0 == Total(r.metrics) as real
    requires forall m :: m in r.metrics ==> 0 <= m.score <= 100
    requires var ms := r.metrics;
             ms[0].score <= 70 && ms[1].score <= 75 && ms[2].score <= 80 && ms[3].score <= 70 && ms[4].score <= 75
             && ms[2].name == WritingName
    ensures 0.0 <= r.overall <= 74.0
    ensures Band(r.overall) != TopBand
    ensures forall s :: s in r.strengths ==> s == WritingName + Excels
  {
    var ms := r.metrics;
    assert ms[0] in ms && ms[1] in ms && ms[2] in ms && ms[3] in ms && ms[4] in ms;
    TotalFive(ms);
    OnlyWritingExcels(r.overall, ms);
  }

  /** With every metric but the writing below 80, only the writing is a
      strength. */
  lemma OnlyWritingExcels(overall: real, ms: seq<Metric>)
    requires |ms| == 5 && ms[2].name == WritingName
    requires ms[0].score < 80 && ms[1].score < 80 && ms[3].score < 80 && ms[4].score < 80
    ensures forall s :: s in MakeReport(overall, ms).strengths ==> s == WritingName + Excels
  {
  }

  lemma TotalFive(ms: seq<Metric>)
    requires |ms| == 5
    ensures Total(ms) == ms[0].score + ms[1].score + ms[2].score + ms[3].score + ms[4].score
  {
    assert ms[1..][1..] == ms[2..] && ms[2..][1..] == ms[3..] && ms[3..][1..] == ms[4..];
    assert Total(ms[4..]) == ms[4].score + Total(ms[4..][1..]) && ms[4..][1..] == [];
    assert Total(ms[3..]) == ms[3].score + Total(ms[4..]);
    assert Total(ms[2..]) == ms[2].score + Total(ms[3..]);
    assert Total(ms[1..]) == ms[1].score + Total(ms[2..]);
  }

  // ---------------------------------------------------------------------
  // The suggestion catalogue

  /** A scorer outcome whose suggestions, if any, are in the catalogue. */
  predicate AllNoted(r: Result<Metric>) {
    r.Ok? ==> forall n :: n in r.value.suggestions ==> Noted(n)
  }

  /** A suggestion some scorer can make. */
  predicate Noted(s: string) {
    || s in {NoConflictNote, NoClimaxNote, StallNote, PlotPraise}
    || s in {NoCastNote, NoLeadNote, SketchyNote, CharacterPraise}
    || s in {NoTextNote, ShortNote, BareNote, WritingPraise}
    || s in {SparseNote, WorldPraise, NoChaptersNote, FlatNote, NoPeakNote, PacingPraise}
    || Text.IsPrefix(MissingPrefix, s)
  }

  /** Every note listing missing elements is in the catalogue. */
  lemma PrefixedNoted(t: string)
    ensures Noted(MissingPrefix + t)
  {
    assert (MissingPrefix + t)[..|MissingPrefix|] == MissingPrefix;
  }

  /** The world metric's suggestions are in the catalogue. */
  lemma WorldNoted(suggestions: seq<string>, tail: string)
    requires forall n :: n in suggestions ==> n == WorldPraise || n == SparseNote || n == MissingPrefix + tail
    ensures forall n :: n in suggestions ==> Noted(n)
  {
    PrefixedNoted(tail);
  }

  /** No band is a suggestion. */
  lemma BandsNotNoted(b: string)
    requires b in [TopBand, GoodBand, FairBand, PoorBand]
    ensures !Noted(b)
  {
    assert b[0] != MissingPrefix[0];
  }

  /** A report of the analyzer holds exactly one of the four overall
      recommendations, the one for its overall score. */
  lemma OneBand(data: Value, b: string)
    requires Analyze(data).Ok? && b in [TopBand, GoodBand, FairBand, PoorBand]
    ensures b in Analyze(data).value.recommendations <==> b == Band(Analyze(data).value.overall)
  {
    OneBandOf(Analyze(data).value, b);
  }

  /** A report of catalogued suggestions holds exactly one band. */
  lemma OneBandOf(r: Report, b: string)
    requires r == MakeReport(r.overall, r.metrics)
    requires forall m, n :: m in r.metrics && n in m.suggestions ==> Noted(n)
    requires b in [TopBand, GoodBand, FairBand, PoorBand]
    ensures b in r.recommendations <==> b == Band(r.overall)
  {
    BandsNotNoted(b);
  }

  // ---------------------------------------------------------------------
  // The tool

  /** Every item is a string. */
  predicate AllStr(vs: seq<Value>) {
    forall k :: 0 <= k < |vs| ==> vs[k].Str?
  }

  /** `any(area in name for area in areas)`: stops at the first area found
      in the name; an area before it that is not a string raises
      TypeError. */
  function MatchesAny(name: string, areas: seq<Value>): (r: Result<bool>)
    ensures AllStr(areas) ==> r == Ok(exists k :: 0 <= k < |areas| && Text.Contains(name, areas[k].s))
    ensures r == Ok(true) ==> exists k :: 0 <= k < |areas| && areas[k].Str? && Text.Contains(name, areas[k].s)
    ensures r.Raise? ==> r.exc == TypeError && !AllStr(areas)
    ensures r == Ok(false) ==> AllStr(areas)
  {
    if |areas| == 0 then Ok(false)
    else if !areas[0].Str? then Raise(TypeError)
    else
      assert forall k :: 1 <= k < |areas| ==> areas[k] == areas[1..][k - 1];
      if Text.Contains(name, areas[0].s) then Ok(true) else MatchesAny(name, areas[1..])
  }

  /** The metric's lower-cased name contains one of the areas. */
  predicate InFocus(m: Metric, areas: seq<Value>) {
    exists k :: 0 <= k < |areas| && areas[k].Str? && Text.Contains(Text.Lower(m.name), areas[k].s)
  }

  /** `kept` holds exactly the metrics of `ms` that are in focus. */
  ghost predicate Selects(kept: seq<Metric>, ms: seq<Metric>, areas: seq<Value>) {
    forall m :: m in kept <==> m in ms && InFocus(m, areas)
  }

  /** The metrics whose lower-cased name contains one of the areas. */
  function FocusOn(ms: seq<Metric>, areas: seq<Value>): (r: Result<seq<Metric>>)
    ensures AllStr(areas) ==> r.Ok?
    ensures r.Raise? ==> r.exc == TypeError
    ensures r.Ok? ==> |r.value| <= |ms|
    ensures r.Ok? ==> Selects(r.value, ms, areas)
  {
    if |ms| == 0 then Ok([])
    else
      var keep :- MatchesAny(Text.Lower(ms[0].name), areas);
      var rest :- FocusOn(ms[1..], areas);
      assert forall m :: m in ms <==> m == ms[0] || m in ms[1..];
      Ok((if keep then [ms[0]] else []) + rest)
  }

  /** `QualityAnalyzerTool.execute`: the analysis of `novel_data`; when
      focus areas are given only the metrics in focus are kept, and nothing
      else of the report changes. */
  function Execute(parameters: Dict<string, Value>): (r: Result<Report>)
    ensures var analysis := Analyze(Field(parameters, "novel_data", Obj([])));
            && (analysis.Raise? ==> r == Raise(analysis.exc))
            && (r.Ok? ==> analysis.Ok? && r.value == analysis.value.(metrics := r.value.metrics))
            && (r.Ok? ==> forall m :: m in r.value.metrics ==> m in analysis.value.metrics)
    ensures var focus := Field(parameters, "focus_areas", List([]));
            r.Ok? && Truthy(focus) ==>
              && Iterate(focus).Ok?
              && Selects(r.value.metrics, Analyze(Field(parameters, "novel_data", Obj([]))).value.metrics,
                         Iterate(focus).value)
    ensures !Truthy(Field(parameters, "focus_areas", List([]))) ==>
              r == Analyze(Field(parameters, "novel_data", Obj([])))
  {
    var report :- Analyze(Field(parameters, "novel_data", Obj([])));
    var focus := Field(parameters, "focus_areas", List([]));
    if !Truthy(focus) then Ok(report)
    else
      var areas :- Iterate(focus);
      var kept :- FocusOn(report.metrics, areas);
      Ok(report.(metrics := kept))
  }

  /** The metric names are written in Chinese: lower-casing leaves them
      as they are and no character of them is ASCII. */
  lemma NamesNotAscii(m: Metric)
    requires m.name in [PlotName, CharacterName, WritingName, WorldName, PacingName]
    ensures Text.Lower(m.name) == m.name
    ensures forall i :: 0 <= i < |m.name| ==> m.name[i] as int >= 128
  {
  }

  /** A non-empty string of ASCII characters. */
  predicate Ascii(s: string) {
    |s| > 0 && forall i :: 0 <= i < |s| ==> s[i] as int < 128
  }

  /** An ASCII area can never be found in a Chinese name. */
  lemma AsciiNotFound(name: string, area: string)
    requires forall i :: 0 <= i < |name| ==> name[i] as int >= 128
    requires Ascii(area)
    ensures !Text.Contains(name, area)
  {
    Text.ContainsAt(name, area);
    forall i ensures !Text.OccursAt(name, area, i) {
      if 0 <= i <= |name| - |area| {
        assert name[i..i + |area|][0] == name[i];
      }
    }
  }

  /** No ASCII area is in focus for a metric with a Chinese name. */
  lemma NoneInFocus(ms: seq<Metric>, areas: seq<Value>)
    requires forall m :: m in ms ==> m.name in [PlotName, CharacterName, WritingName, WorldName, PacingName]
    requires AllStr(areas) && forall k :: 0 <= k < |areas| ==> Ascii(areas[k].s)
    ensures forall m :: m in ms ==> !InFocus(m, areas)
  {
    forall m | m in ms ensures !InFocus(m, areas) {
      NamesNotAscii(m);
      forall k | 0 <= k < |areas| ensures !Text.Contains(Text.Lower(m.name), areas[k].s) {
        AsciiNotFound(m.name, areas[k].s);
      }
    }
  }

  /** Every analysed metric carries one of the five Chinese names. */
  lemma AnalyzedNames(data: Value)
    requires Analyze(data).Ok?
    ensures forall m :: m in Analyze(data).value.metrics ==>
              m.name in [PlotName, CharacterName, WritingName, WorldName, PacingName]
  {
    AnalyzeCeiling(data);
    NamesAmong(Analyze(data).value.metrics);
  }

  /** Five metrics named in the analysis order carry only those names. */
  lemma NamesAmong(ms: seq<Metric>)
    requires |ms| == 5 && ms[0].name == PlotName && ms[1].name == CharacterName && ms[2].name == WritingName
             && ms[3].name == WorldName && ms[4].name == PacingName
    ensures forall m :: m in ms ==> m.name in [PlotName, CharacterName, WritingName, WorldName, PacingName]
  {
  }

  /** A selection from metrics none of which is in focus is empty. */
  lemma KeptNothing(kept: seq<Metric>, ms: seq<Metric>, areas: seq<Value>)
    requires Selects(kept, ms, areas)
    requires forall m :: m in ms ==> !InFocus(m, areas)
    ensures kept == []
  {
    HeadIn(kept);
  }

  lemma HeadIn(ms: seq<Metric>)
    ensures |ms| > 0 ==> ms[0] in ms
  {
  }

  /** Focus areas written in English ("plot", "character", ...), as the
      tool's own parameter description suggests, keep no metric at all. */
  lemma EnglishFocusKeepsNothing(parameters: Dict<string, Value>)
    requires Execute(parameters).Ok?
    requires var focus := Field(parameters, "focus_areas", List([]));
             focus.List? && |focus.items| > 0 && AllStr(focus.items)
             && forall k :: 0 <= k < |focus.items| ==> Ascii(focus.items[k].s)
    ensures Execute(parameters).value.metrics == []
  {
    var data := Field(parameters, "novel_data", Obj([]));
    var focus := Field(parameters, "focus_areas", List([]));
    AnalyzedNames(data);
    assert Iterate(focus).value == focus.items;
    NoneInFocus(Analyze(data).value.metrics, focus.items);
    KeptNothing(Execute(parameters).value.metrics, Analyze(data).value.metrics, focus.items);
  }
}
