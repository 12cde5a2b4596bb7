/** The tool layer's consistency checker: character completeness and
    cultivation levels, links between consecutive plot points, the magic
    system and geography of the world, characters booked into two events
    at the same moment, and the logic problems a language model lists in
    its reply (passed in here as text).

    Each check reads story data with `.get`, so data of the wrong shape
    raises the exception Python would raise at that point. */
module ToolsConsistency {
  import opened Wrappers
  import opened Dicts
  import opened Seqs
  import opened Json
  import opened Consistency
  import Text

  // ---------------------------------------------------------------------
  // Characters

  const RequiredFields: seq<string> := ["name", "appearance", "personality", "background", "abilities"]

  /** The cultivation stages a power level must be one of. */
  const PowerLevels: seq<string> :=
    ["凡人", "炼气期", "筑基期", "金丹期", "元婴期", "化神期", "炼虚期", "合体期", "大乘期", "渡劫期", "仙人"]

  /** The required fields that are absent or falsy, in the listed order. */
  function MissingFields(ch: Dict<string, Value>): (r: seq<string>)
    ensures forall f :: f in r <==> f in RequiredFields && Lacks(ch, f)
    ensures |r| <= |RequiredFields|
  {
    Filter(RequiredFields, f => Lacks(ch, f))
  }

  /** `_validate_power_level`: membership in the list of stages. */
  predicate ValidPowerLevel(level: Value) {
    level.Str? && level.s in PowerLevels
  }

  /** `abilities.get("power_level", "")`, when abilities is a dictionary. */
  function PowerLevelOf(ch: Dict<string, Value>): Value
    requires Field(ch, "abilities", Obj([])).Obj?
  {
    Field(Field(ch, "abilities", Obj([])).fields, "power_level", Str(""))
  }

  function IncompleteIssue(name: Value, missing: seq<string>): (r: Issue)
    ensures r.kind == "character" && r.severity == "medium" && r.related == [name]
    ensures |r.suggestions| == |missing|
  {
    var n := Display(name);
    Issue("char_incomplete_" + n, "character", "medium",
          "角色" + n + "缺少必要信息：" + Text.Join(", ", missing), "角色定义",
          seq(|missing|, k requires 0 <= k < |missing| => "补充" + n + "的" + missing[k] + "信息"),
          [name])
  }

  function PowerIssue(name: Value, level: Value): (r: Issue)
    ensures r.kind == "character" && r.severity == "high" && r.related == [name, Str("power_system")]
  {
    var n := Display(name);
    Issue("char_power_" + n, "character", "high",
          "角色" + n + "的实力等级" + Display(level) + "不符合体系设定", "角色能力定义",
          ["调整" + n + "的实力等级"], [name, Str("power_system")])
  }

  /** The issues of one registered character.  Its abilities must be a
      dictionary (or absent), since the check calls `.get` on them. */
  function EntryIssues(name: Value, ch: Dict<string, Value>): (r: Result<seq<Issue>>)
    ensures r.Raise? <==> !Field(ch, "abilities", Obj([])).Obj?
    ensures r.Raise? ==> r.exc == AttributeError
    ensures r.Ok? ==> |r.value| <= 2
    ensures r.Ok? ==> forall x :: x in r.value ==>
              x == IncompleteIssue(name, MissingFields(ch)) || x == PowerIssue(name, PowerLevelOf(ch))
    ensures r.Ok? ==> (IncompleteIssue(name, MissingFields(ch)) in r.value <==> |MissingFields(ch)| > 0)
    ensures r.Ok? ==> (PowerIssue(name, PowerLevelOf(ch)) in r.value <==>
                        Truthy(PowerLevelOf(ch)) && !ValidPowerLevel(PowerLevelOf(ch)))
  {
    var missing := MissingFields(ch);
    var incomplete := if |missing| > 0 then [IncompleteIssue(name, missing)] else [];
    var abilities := Field(ch, "abilities", Obj([]));
    if !abilities.Obj? then Raise(AttributeError)
    else
      var level := PowerLevelOf(ch);
      var power := if Truthy(level) && !ValidPowerLevel(level) then [PowerIssue(name, level)] else [];
      var a := IncompleteIssue(name, missing);
      var b := PowerIssue(name, level);
      assert a != b by { assert a.severity != b.severity; }
      forall x ensures x in incomplete + power <==> (|missing| > 0 && x == a) || (x == b && Truthy(level) && !ValidPowerLevel(level)) {
        OptionalPair(x, |missing| > 0, a, Truthy(level) && !ValidPowerLevel(level), b);
      }
      Ok(incomplete + power)
  }

  /** `_check_character_consistency` over the whole registry, in
      registration order. */
  function CharacterIssues(reg: Dict<Value, Dict<string, Value>>): (r: Result<seq<Issue>>)
    ensures r.Raise? <==> exists i :: 0 <= i < |reg| && EntryIssues(reg[i].0, reg[i].1).Raise?
    ensures r.Ok? ==> forall x :: x in r.value <==>
              exists i :: 0 <= i < |reg| && x in EntryIssues(reg[i].0, reg[i].1).value
    ensures r.Raise? ==> r.exc == AttributeError
  {
    CollectFlat(reg, EntryOf)
  }

  function EntryOf(e: (Value, Dict<string, Value>)): Result<seq<Issue>> {
    EntryIssues(e.0, e.1)
  }

  // ---------------------------------------------------------------------
  // Plot

  function PlotIssue(i: nat, cur: Dict<string, Value>, next: Dict<string, Value>): (r: Issue)
    ensures r.kind == "plot" && r.severity == "high"
    ensures r.related == [Field(cur, "id", Str("")), Field(next, "id", Str(""))]
  {
    Issue("plot_connection_" + Text.NatToStr(i), "plot", "high",
          "情节点" + Display(Field(cur, "name", Str(""))) + "与下一个情节点缺乏逻辑连接",
          "情节点" + Text.NatToStr(i) + "-" + Text.NatToStr(i + 1),
          ["添加过渡情节", "调整情节顺序"],
          [Field(cur, "id", Str("")), Field(next, "id", Str(""))])
  }

  /** Two plot points are linked when an outcome of the first is a
      prerequisite of the second. */
  predicate Linked(cur: Dict<string, Value>, next: Dict<string, Value>) {
    var outcomes := Iterate(Field(cur, "outcomes", List([])));
    var prereqs := Iterate(Field(next, "prerequisites", List([])));
    outcomes.Ok? && prereqs.Ok? && exists x :: x in outcomes.value && x in prereqs.value
  }

  /** The check of plot points `i` and `i + 1`: an issue when they are not
      linked. */
  function PairIssue(i: nat, cur: Value, next: Value): (r: Result<Option<Issue>>)
    ensures !cur.Obj? || !next.Obj? ==> r == Raise(AttributeError)
    ensures r.Ok? ==> cur.Obj? && next.Obj?
  {
    var outcomes :- GetOr(cur, "outcomes", List([]));
    var prereqs :- GetOr(next, "prerequisites", List([]));
    var linked :- Overlap(outcomes, prereqs);
    Ok(if linked then None else Some(PlotIssue(i, cur.fields, next.fields)))
  }

  /** The check of a pair of dictionaries reports the plot issue exactly
      when they are not linked; it raises only on unhashable or
      non-iterable outcomes and prerequisites. */
  lemma PairIssueMeaning(i: nat, cur: Value, next: Value)
    ensures var r := PairIssue(i, cur, next);
            && (r.Raise? ==> r.exc == AttributeError || r.exc == TypeError)
            && (r.Ok? ==> (r.value.Some? <==> !Linked(cur.fields, next.fields)))
            && (r.Ok? && r.value.Some? ==> r.value.value == PlotIssue(i, cur.fields, next.fields))
  {
  }

  /** The pairs from `i` on. */
  function PlotPairs(points: seq<Value>, i: nat): Result<seq<Issue>> {
    Adjacent(points, i, PairIssue)
  }

  /** The pairs check raises exactly when the check of some pair does. */
  lemma PlotPairsRaise(points: seq<Value>, i: nat)
    ensures PlotPairs(points, i).Raise? <==>
              exists j :: i <= j && j + 1 < |points| && PairIssue(j, points[j], points[j + 1]).Raise?
  {
    AdjacentRaise(points, i, PairIssue);
  }

  /** A completed pairs check reports exactly the issues of the pairs
      that are not linked. */
  lemma PlotPairsMembers(points: seq<Value>, i: nat, x: Issue)
    requires PlotPairs(points, i).Ok?
    ensures x in PlotPairs(points, i).value <==>
              exists j :: i <= j && j + 1 < |points| && PairIssue(j, points[j], points[j + 1]) == Ok(Some(x))
  {
    AdjacentMembers(points, i, PairIssue, x);
  }

  /** `_check_plot_consistency`: every consecutive pair of plot points of
      the outline.  A string slices and indexes like a list of characters,
      whose first `.get` raises; other non-lists cannot be sliced. */
  function PlotIssues(data: Value): (r: Result<seq<Issue>>)
  {
    var outline :- GetOr(data, "story_outline", Obj([]));
    var points :- GetOr(outline, "plot_points", List([]));
    match points
    case List(items) => PlotPairs(items, 0)
    case Str(s) => if |s| >= 2 then Raise(AttributeError) else Ok([])
    case _ => Raise(TypeError)
  }

  /** A plot issue is reported for pair `j` exactly when those two points
      are not linked, and only for such pairs. */
  lemma PlotIssueIff(items: seq<Value>, j: nat)
    requires PlotPairs(items, 0).Ok? && j + 1 < |items|
    ensures items[j].Obj? && items[j + 1].Obj?
    ensures PlotIssue(j, items[j].fields, items[j + 1].fields) in PlotPairs(items, 0).value <==>
              !Linked(items[j].fields, items[j + 1].fields)
  {
    PlotPairOk(items, j);
    if !Linked(items[j].fields, items[j + 1].fields) {
      PlotIssueReported(items, j);
    } else {
      PlotIssueNotReported(items, j);
    }
  }

  /** In a completed plot check every pair's check completed. */
  lemma PlotPairOk(items: seq<Value>, j: nat)
    requires PlotPairs(items, 0).Ok? && j + 1 < |items|
    ensures PairIssue(j, items[j], items[j + 1]).Ok?
    ensures items[j].Obj? && items[j + 1].Obj?
  {
    PlotPairsRaise(items, 0);
  }

  lemma PlotIssueReported(items: seq<Value>, j: nat)
    requires PlotPairs(items, 0).Ok? && j + 1 < |items|
    requires PairIssue(j, items[j], items[j + 1]).Ok? && items[j].Obj? && items[j + 1].Obj?
    requires !Linked(items[j].fields, items[j + 1].fields)
    ensures PlotIssue(j, items[j].fields, items[j + 1].fields) in PlotPairs(items, 0).value
  {
    PairIssueMeaning(j, items[j], items[j + 1]);
    var x := PlotIssue(j, items[j].fields, items[j + 1].fields);
    assert PairIssue(j, items[j], items[j + 1]) == Ok(Some(x));
    PlotPairsMembers(items, 0, x);
  }

  lemma PlotIssueNotReported(items: seq<Value>, j: nat)
    requires PlotPairs(items, 0).Ok? && j + 1 < |items|
    requires PairIssue(j, items[j], items[j + 1]).Ok? && items[j].Obj? && items[j + 1].Obj?
    requires Linked(items[j].fields, items[j + 1].fields)
    ensures PlotIssue(j, items[j].fields, items[j + 1].fields) !in PlotPairs(items, 0).value
  {
    var a, b := items[j].fields, items[j + 1].fields;
    var x := PlotIssue(j, a, b);
    PlotPairsMembers(items, 0, x);
    PairIssueMeaning(j, items[j], items[j + 1]);
    if x in PlotPairs(items, 0).value {
      var k :| 0 <= k && k + 1 < |items| && PairIssue(k, items[k], items[k + 1]) == Ok(Some(x));
      PairIssueMeaning(k, items[k], items[k + 1]);
      PlotIssueNumbered(k, j, items[k].fields, items[k + 1].fields, a, b);
      assert false;
    }
  }

  /** Plot issues of different pairs have different ids. */
  lemma PlotIssueNumbered(i: nat, j: nat, a: Dict<string, Value>, b: Dict<string, Value>,
                          c: Dict<string, Value>, d: Dict<string, Value>)
    requires PlotIssue(i, a, b) == PlotIssue(j, c, d)
    ensures i == j
  {
    var p := "plot_connection_";
    assert (p + Text.NatToStr(i))[|p|..] == Text.NatToStr(i);
    assert (p + Text.NatToStr(j))[|p|..] == Text.NatToStr(j);
    Text.DigitsValueNatToStr(i);
    Text.DigitsValueNatToStr(j);
  }

  /** The link test is symmetric. */
  lemma OverlapSymmetric(a: Value, b: Value)
    ensures Overlap(a, b) == Overlap(b, a)
  {
  }

  // ---------------------------------------------------------------------
  // World

  const MagicIssue: Issue := Issue(
    "magic_levels_insufficient", "world", "medium", "魔法体系的实力等级层次不够丰富",
    "魔法体系定义", ["增加更多实力等级", "细化等级差异"], [Str("magic_system")])

  const ClimateIssue: Issue := Issue(
    "geography_climate_missing", "world", "low", "定义了大陆但缺少气候带信息",
    "地理设定", ["添加气候带描述"], [Str("geography")])

  /** `_check_magic_system_consistency`: fewer than three power levels. */
  function MagicIssues(magic: Value): (r: Result<seq<Issue>>)
    ensures !magic.Obj? ==> r == Raise(AttributeError)
    ensures r.Ok? ==> magic.Obj? && Len(Field(magic.fields, "power_levels", List([]))).Ok?
    ensures r.Ok? ==> (r.value == [MagicIssue] <==> Len(Field(magic.fields, "power_levels", List([]))).value < 3)
    ensures r.Ok? ==> (r.value == [] <==> Len(Field(magic.fields, "power_levels", List([]))).value >= 3)
  {
    var levels :- GetOr(magic, "power_levels", List([]));
    var n :- Len(levels);
    Ok(if n < 3 then [MagicIssue] else [])
  }

  /** `_check_geography_consistency`: continents without climate zones.
      The climate zones are only measured when there are continents. */
  function GeographyIssues(geo: Value): (r: Result<seq<Issue>>)
    ensures !geo.Obj? ==> r == Raise(AttributeError)
    ensures r.Ok? ==> geo.Obj? && Len(Field(geo.fields, "continents", List([]))).Ok?
    ensures r.Ok? ==> (r.value == [ClimateIssue] <==>
              Len(Field(geo.fields, "continents", List([]))).value > 0 &&
              Len(Field(geo.fields, "climate_zones", List([]))) == Ok(0))
    ensures r.Ok? ==> r.value == [] || r.value == [ClimateIssue]
  {
    var continents :- GetOr(geo, "continents", List([]));
    var zones := Field(geo.fields, "climate_zones", List([]));
    var nc :- Len(continents);
    if nc > 0 then
      var nz :- Len(zones);
      Ok(if nz == 0 then [ClimateIssue] else [])
    else Ok([])
  }

  /** `_check_world_consistency`: the magic system and the geography, each
      only when present and non-empty. */
  function WorldIssues(world: Value): (r: Result<seq<Issue>>)
    ensures !world.Obj? ==> r == Raise(AttributeError)
    ensures (world.Obj? && !Truthy(Field(world.fields, "magic_system", Obj([]))) &&
             !Truthy(Field(world.fields, "geography", Obj([])))) ==> r == Ok([])
  {
    var magic :- GetOr(world, "magic_system", Obj([]));
    var mi :- if Truthy(magic) then MagicIssues(magic) else Ok([]);
    var geo := Field(world.fields, "geography", Obj([]));
    var gi :- if Truthy(geo) then GeographyIssues(geo) else Ok([]);
    assert !Truthy(magic) && !Truthy(geo) ==> mi + gi == [];
    Ok(mi + gi)
  }

  /** The magic issue is reported exactly when a non-empty magic system has
      too few levels, the climate issue exactly when a non-empty geography
      has continents but no climate zones. */
  lemma WorldIssuesMembers(world: Value)
    requires WorldIssues(world).Ok?
    ensures world.Obj?
    ensures forall x :: x in WorldIssues(world).value ==> x == MagicIssue || x == ClimateIssue
    ensures MagicIssue in WorldIssues(world).value <==>
              Truthy(Field(world.fields, "magic_system", Obj([]))) &&
              MagicIssues(Field(world.fields, "magic_system", Obj([]))) == Ok([MagicIssue])
    ensures ClimateIssue in WorldIssues(world).value <==>
              Truthy(Field(world.fields, "geography", Obj([]))) &&
              GeographyIssues(Field(world.fields, "geography", Obj([]))) == Ok([ClimateIssue])
  {
    assert MagicIssue != ClimateIssue by { assert MagicIssue.severity != ClimateIssue.severity; }
  }

  // ---------------------------------------------------------------------
  // Timeline

  /** `event.get(key, default)` of an event known to be a dictionary. */
  function EventField(e: Value, key: string, default: Value): Value
    requires e.Obj?
  {
    Field(e.fields, key, default)
  }

  /** Two events share a character and a timestamp (and their character
      lists can be made into sets). */
  predicate Clash(e1: Value, e2: Value)
    requires e1.Obj? && e2.Obj?
  {
    var c1 := EventField(e1, "characters_involved", List([]));
    var c2 := EventField(e2, "characters_involved", List([]));
    && SetOf(c1).Ok? && SetOf(c2).Ok?
    && (exists x :: x in Iterate(c1).value && x in Iterate(c2).value)
    && EventField(e1, "timestamp", Str("")) == EventField(e2, "timestamp", Str(""))
  }

  /** `_has_timeline_conflict`. */
  function HasConflict(e1: Value, e2: Value): (r: Result<bool>)
    ensures !e1.Obj? ==> r == Raise(AttributeError)
    ensures r.Ok? <==> e1.Obj? && e2.Obj? &&
                       SetOf(EventField(e1, "characters_involved", List([]))).Ok? &&
                       SetOf(EventField(e2, "characters_involved", List([]))).Ok?
    ensures r.Ok? ==> (r.value <==> Clash(e1, e2))
  {
    var c1 :- GetOr(e1, "characters_involved", List([]));
    var _ :- SetOf(c1);
    var c2 :- GetOr(e2, "characters_involved", List([]));
    var shared :- Overlap(c1, c2);
    Ok(shared && EventField(e1, "timestamp", Str("")) == EventField(e2, "timestamp", Str("")))
  }

  /** A clash is symmetric. */
  lemma ConflictSymmetric(e1: Value, e2: Value)
    requires HasConflict(e1, e2).Ok?
    ensures HasConflict(e2, e1) == HasConflict(e1, e2)
  {
  }

  function ConflictIssue(e1: Value, e2: Value): (r: Issue)
    requires e1.Obj? && e2.Obj?
    ensures r.kind == "timeline" && r.severity == "critical"
    ensures r.related == [EventField(e1, "id", Str("")), EventField(e2, "id", Str(""))]
  {
    var id1 := EventField(e1, "id", Str(""));
    var id2 := EventField(e2, "id", Str(""));
    Issue("timeline_conflict_" + Display(id1) + "_" + Display(id2), "timeline", "critical",
          "事件" + Display(EventField(e1, "name", Str(""))) + "与" + Display(EventField(e2, "name", Str(""))) + "存在时间冲突",
          "时间线", ["调整事件时间", "分离冲突角色"], [id1, id2])
  }

  /** The outcome of checking one pair of events. */
  function PairConflict(e1: Value, e2: Value): (r: Result<Option<Issue>>)
    ensures r.Raise? <==> HasConflict(e1, e2).Raise?
    ensures r.Ok? ==> (r.value.Some? <==> Clash(e1, e2))
    ensures r.Ok? && r.value.Some? ==> r.value.value == ConflictIssue(e1, e2)
  {
    var c :- HasConflict(e1, e2);
    Ok(if c then Some(ConflictIssue(e1, e2)) else None)
  }

  /** `_check_timeline_consistency`: every pair of events `i < j`, in loop
      order, each clash reported as a critical issue. */
  function TimelineIssues(events: seq<Value>): Result<seq<Issue>> {
    PairChecks(events, 0, 1, PairConflict)
  }

  /** The timeline check raises exactly when one of its pair checks does. */
  lemma TimelineIssuesRaise(events: seq<Value>)
    ensures TimelineIssues(events).Raise? <==>
              exists i, j :: 0 <= i < j < |events| && HasConflict(events[i], events[j]).Raise?
  {
    PairChecksRaise(events, 0, 1, PairConflict);
    if TimelineIssues(events).Raise? {
      var i, j :| 0 <= i < j < |events| && PairAtOrAfter(0, 1, i, j) &&
        PairConflict(events[i], events[j]).Raise?;
      assert HasConflict(events[i], events[j]).Raise?;
    }
    if exists i, j :: 0 <= i < j < |events| && HasConflict(events[i], events[j]).Raise? {
      var i, j :| 0 <= i < j < |events| && HasConflict(events[i], events[j]).Raise?;
      assert PairAtOrAfter(0, 1, i, j) && PairConflict(events[i], events[j]).Raise?;
    }
  }

  /** The clashing index pairs i < j of the events. */
  ghost function ClashingPairs(events: seq<Value>): set<(nat, nat)> {
    set i: nat, j: nat | i < j < |events| && events[i].Obj? && events[j].Obj? && Clash(events[i], events[j]) :: (i, j)
  }

  /** The clashing pairs in the order the scan meets them. */
  function ClashOrder(events: seq<Value>): seq<(nat, nat)> {
    HitPairs(|events|, 0, 1, At(events, OkPart(PairConflict)))
  }

  /** When the scan completes, every pair of events was checked without
      raising, so each is a dictionary and the scan reports the pair
      exactly when the two clash. */
  lemma ScanPairFacts(events: seq<Value>, p: nat, q: nat)
    requires TimelineIssues(events).Ok? && p < q < |events|
    ensures events[p].Obj? && events[q].Obj?
    ensures var at := At(events, OkPart(PairConflict));
            && (at(p, q).Some? <==> Clash(events[p], events[q]))
            && (at(p, q).Some? ==> at(p, q).value == ConflictIssue(events[p], events[q]))
  {
    TimelineIssuesRaise(events);
    var e1, e2 := events[p], events[q];
    assert HasConflict(e1, e2).Ok?;
    var pc := PairConflict(e1, e2);
    assert pc.Ok?;
    assert At(events, OkPart(PairConflict))(p, q) == pc.value;
  }

  /** When the scan completes, each clashing pair i < j is reported
      exactly once, in row order: the k-th issue is the one for the k-th
      clashing pair, and there are as many issues as clashing pairs. */
  lemma TimelineIssuesOnce(events: seq<Value>)
    requires TimelineIssues(events).Ok?
    ensures var r, ps := TimelineIssues(events).value, ClashOrder(events);
            && |r| == |ps|
            && (forall k :: 0 <= k < |ps| ==>
                  && ps[k].0 < ps[k].1 < |events| && events[ps[k].0].Obj? && events[ps[k].1].Obj?
                  && r[k] == ConflictIssue(events[ps[k].0], events[ps[k].1]))
            && (set p | p in ps) == ClashingPairs(events)
            && Distinct(ps)
    ensures |TimelineIssues(events).value| == |ClashingPairs(events)|
  {
    var g := OkPart(PairConflict);
    var at := At(events, g);
    var ps := ClashOrder(events);
    var r := TimelineIssues(events).value;
    PairChecksAllPairs(events, PairConflict);
    AllPairsReports(events, g);
    HitPairsSound(|events|, 0, 1, at);
    HitPairsEnumerate(|events|, at);
    forall k | 0 <= k < |ps|
      ensures events[ps[k].0].Obj? && events[ps[k].1].Obj?
      ensures r[k] == ConflictIssue(events[ps[k].0], events[ps[k].1])
    {
      ScanPairFacts(events, ps[k].0, ps[k].1);
    }
    forall x | x in HitSet(|events|, at) ensures x in ClashingPairs(events) {
      ScanPairFacts(events, x.0, x.1);
    }
    forall x | x in ClashingPairs(events) ensures x in HitSet(|events|, at) {
      ScanPairFacts(events, x.0, x.1);
    }
    assert HitSet(|events|, at) == ClashingPairs(events);
  }

  /** A clash between two events `i < j` whose conflict issue is `x`. */
  predicate ClashAt(events: seq<Value>, x: Issue) {
    exists i, j :: 0 <= i < j < |events| && events[i].Obj? && events[j].Obj? &&
      Clash(events[i], events[j]) && x == ConflictIssue(events[i], events[j])
  }

  /** Otherwise it reports exactly the clashing pairs. */
  lemma TimelineIssuesClashes(events: seq<Value>, x: Issue)
    requires TimelineIssues(events).Ok?
    ensures x in TimelineIssues(events).value <==> ClashAt(events, x)
  {
    if x in TimelineIssues(events).value {
      TimelineReportedClash(events, x);
    }
    if ClashAt(events, x) {
      TimelineClashReported(events, x);
    }
  }

  lemma TimelineReportedClash(events: seq<Value>, x: Issue)
    requires TimelineIssues(events).Ok? && x in TimelineIssues(events).value
    ensures ClashAt(events, x)
  {
    PairChecksMembers(events, 0, 1, PairConflict, x);
    var i, j :| 0 <= i < j < |events| && PairAtOrAfter(0, 1, i, j) &&
      PairConflict(events[i], events[j]) == Ok(Some(x));
    assert HasConflict(events[i], events[j]).Ok?;
    assert events[i].Obj? && events[j].Obj? && Clash(events[i], events[j]);
    assert x == ConflictIssue(events[i], events[j]);
  }

  lemma TimelineClashReported(events: seq<Value>, x: Issue)
    requires TimelineIssues(events).Ok? && ClashAt(events, x)
    ensures x in TimelineIssues(events).value
  {
    var i, j :| 0 <= i < j < |events| && events[i].Obj? && events[j].Obj? &&
      Clash(events[i], events[j]) && x == ConflictIssue(events[i], events[j]);
    PairChecksRaise(events, 0, 1, PairConflict);
    assert PairAtOrAfter(0, 1, i, j);
    assert PairConflict(events[i], events[j]).Ok?;
    assert PairConflict(events[i], events[j]) == Ok(Some(x));
    PairChecksMembers(events, 0, 1, PairConflict, x);
  }

  // ---------------------------------------------------------------------
  // Logic

  /** A reply line that names a problem: non-blank and mentioning 问题,
      矛盾 or 不合理. */
  predicate Flagged(line: string) {
    |Text.Strip(line)| > 0 && (Text.Contains(line, "问题") || Text.Contains(line, "矛盾") || Text.Contains(line, "不合理"))
  }

  function LogicIssue(i: nat, line: string): (r: Issue)
    ensures r.kind == "logic" && r.severity == "medium" && r.description == Text.Strip(line)
  {
    Issue("logic_issue_" + Text.NatToStr(i), "logic", "medium", Text.Strip(line), "故事逻辑",
          ["重新审视相关设定", "调整情节逻辑"], [Str("story_logic")])
  }

  /** The reply's lines, numbered from 0 after the reply is stripped. */
  function ReplyLines(reply: string): seq<string> {
    Text.Split(Text.Strip(reply), '\n')
  }

  function LogicFrom(lines: seq<string>, i: nat): (r: seq<Issue>)
    requires i <= |lines|
    ensures forall x :: x in r <==> exists k :: i <= k < |lines| && Flagged(lines[k]) && x == LogicIssue(k, lines[k])
    decreases |lines| - i
  {
    if i == |lines| then []
    else (if Flagged(lines[i]) then [LogicIssue(i, lines[i])] else []) + LogicFrom(lines, i + 1)
  }

  /** `_parse_logic_issues`: one medium issue per flagged line. */
  function LogicIssues(reply: string): (r: seq<Issue>)
    ensures forall x :: x in r <==>
              exists k :: 0 <= k < |ReplyLines(reply)| && Flagged(ReplyLines(reply)[k]) &&
                x == LogicIssue(k, ReplyLines(reply)[k])
    ensures forall x :: x in r ==> x.kind == "logic" && x.severity == "medium"
  {
    LogicFrom(ReplyLines(reply), 0)
  }

  // ---------------------------------------------------------------------
  // The checks as the tool runs them

  /** `check_full_consistency`: extract, run the five checks in order and
      report on all their issues.  `reply` is the language model's answer
      to the logic prompt.  The extracted state is kept even when a check
      raises. */
  function FullCheck(c: Checker, data: Value, reply: string): (r: (Result<Report>, Checker))
    ensures r.1 == Extract(c, data).1
    ensures r.0.Ok? ==> Extract(c, data).0.None?
    ensures r.0.Ok? ==>
              var s := r.1;
              && CharacterIssues(s.registry).Ok? && PlotIssues(data).Ok?
              && WorldIssues(s.world).Ok? && TimelineIssues(s.events).Ok?
              && r.0.value.issues == CharacterIssues(s.registry).value + PlotIssues(data).value
                   + WorldIssues(s.world).value + TimelineIssues(s.events).value + LogicIssues(reply)
  {
    var (e, s) := Extract(c, data);
    if e.Some? then (Raise(e.value), s)
    else
      var issues := (
        var ci :- CharacterIssues(s.registry);
        var pi :- PlotIssues(data);
        var wi :- WorldIssues(s.world);
        var ti :- TimelineIssues(s.events);
        Ok(ci + pi + wi + ti + LogicIssues(reply)));
      match issues
      case Raise(x) => (Raise(x), s)
      case Ok(xs) => (Ok(GenerateReport(xs)), s)
  }

  /** An empty story, checked by a checker with nothing registered and no
      events and with a reply that flags no line, scores a perfect 100 with
      no issues and no recommendations. */
  lemma EmptyStoryIsPerfect(c: Checker, data: Value, reply: string)
    requires c.registry == [] && c.events == [] && data == Obj([]) && LogicIssues(reply) == []
    ensures FullCheck(c, data, reply).0.Ok?
    ensures FullCheck(c, data, reply).0.value.score == 100.0
    ensures FullCheck(c, data, reply).0.value.recommendations == []
  {
    EmptyStoryReport(c, data, reply);
    EmptyReport([]);
  }

  /** The empty story's report has no issues. */
  lemma EmptyStoryReport(c: Checker, data: Value, reply: string)
    requires c.registry == [] && c.events == [] && data == Obj([]) && LogicIssues(reply) == []
    ensures FullCheck(c, data, reply).0 == Ok(GenerateReport([]))
  {
    ExtractEmpty(c, data);
    EmptyStoryChecks(data, c.events);
    var s := Extract(c, data).1;
    assert CharacterIssues(s.registry) == Ok([]);
  }

  /** Each check of an empty story finds nothing. */
  lemma EmptyStoryChecks(data: Value, events: seq<Value>)
    requires data == Obj([]) && events == []
    ensures CharacterIssues([]) == Ok([])
    ensures PlotIssues(data) == Ok([])
    ensures WorldIssues(data) == Ok([])
    ensures TimelineIssues(events) == Ok([])
  {
    assert PlotPairs([], 0) == Ok([]) by {
      assert Adjacent<Value, Issue>([], 0, PairIssue) == Ok([]);
    }
    assert PairChecks<Value, Issue>(events, 0, 1, PairConflict) == Ok([]);
  }

  /** `_check_character_in_chapter` for one focused name: it finds nothing,
      but reads `personality.get(...)`, which raises on a registered,
      non-empty character whose personality is not a dictionary. */
  function FocusCheck(reg: Dict<Value, Dict<string, Value>>, name: Value): (r: Result<()>)
    ensures r.Raise? <==> (!Hashable(name) ||
              (name in Keys(reg) && |Get(reg, name).value| > 0 &&
               !Field(Get(reg, name).value, "personality", Obj([])).Obj?))
  {
    if !Hashable(name) then Raise(TypeError)
    else match Get(reg, name)
      case None => Ok(())
      case Some(ch) =>
        if |ch| == 0 then Ok(())
        else if Field(ch, "personality", Obj([])).Obj? then Ok(())
        else Raise(AttributeError)
  }

  function FocusAll(reg: Dict<Value, Dict<string, Value>>, names: seq<Value>): (r: Result<()>)
    ensures r.Raise? <==> exists i :: 0 <= i < |names| && FocusCheck(reg, names[i]).Raise?
  {
    if |names| == 0 then Ok(())
    else
      assert forall i :: 1 <= i < |names| ==> names[i] == names[1..][i - 1];
      var _ :- FocusCheck(reg, names[0]);
      FocusAll(reg, names[1..])
  }

  /** `check_chapter_consistency`: never reports an issue; it only raises
      on a chapter of the wrong shape. */
  function ChapterCheck(c: Checker, chapter: Value): (r: Result<seq<Issue>>)
    ensures r.Ok? ==> r.value == []
    ensures !chapter.Obj? ==> r == Raise(AttributeError)
    ensures chapter.Obj? && Field(chapter.fields, "character_focus", List([])) == List([]) ==> r == Ok([])
  {
    var focus :- GetOr(chapter, "character_focus", List([]));
    var names :- Iterate(focus);
    var _ :- FocusAll(c.registry, names);
    Ok([])
  }



  /** `ConsistencyCheckerTool.execute`.  `reply` is what the language model
      answers in a full check. */
  function Execute(c: Checker, params: Value, reply: string): (r: (Result<Reply>, Checker))
    ensures !params.Obj? ==> r == (Raise(AttributeError), c)
    ensures params.Obj? && Field(params.fields, "check_type", Null) !in CheckTypes ==>
              r == (Ok(ErrorReply("不支持的检查类型")), c)
    ensures params.Obj? && Field(params.fields, "check_type", Null) == Str("chapter") ==>
              r.1 == c && (r.0.Ok? ==> r.0.value == IssuesReply("chapter_issues", []))
    ensures params.Obj? && Field(params.fields, "check_type", Null) == Str("world") ==>
              r.1 == c.(world := Field(params.fields, "world_setting", Obj([])))
  {
    if !params.Obj? then (Raise(AttributeError), c)
    else
      var p := params.fields;
      var kind := Field(p, "check_type", Null);
      if kind == Str("full") then
        var (rep, s) := FullCheck(c, Field(p, "story_data", Obj([])), reply);
        (if rep.Ok? then Ok(ReportReply(rep.value)) else Raise(rep.exc), s)
      else if kind == Str("character") then
        Consistency.CharacterCheck(c, Field(p, "characters", List([])), CharacterIssues)
      else if kind == Str("world") then
        var ws := Field(p, "world_setting", Obj([]));
        var issues := WorldIssues(ws);
        (if issues.Ok? then Ok(IssuesReply("world_issues", issues.value)) else Raise(issues.exc),
         c.(world := ws))
      else if kind == Str("chapter") then
        var issues := ChapterCheck(c, Field(p, "chapter", Obj([])));
        (if issues.Ok? then Ok(IssuesReply("chapter_issues", issues.value)) else Raise(issues.exc), c)
      else (Ok(ErrorReply("不支持的检查类型")), c)
  }

  /** The tool's parameter description offers `plot` and `timeline` checks,
      but `execute` has no branch for them: both answer with the error. */
  lemma PlotAndTimelineUnsupported(c: Checker, params: Dict<string, Value>, reply: string)
    requires Field(params, "check_type", Null) in [Str("plot"), Str("timeline")]
    ensures Execute(c, Obj(params), reply) == (Ok(ErrorReply("不支持的检查类型")), c)
  {
    var kind := Field(params, "check_type", Null);
    assert kind !in CheckTypes by {
      assert kind.s[0] in "pt";
    }
  }
}
