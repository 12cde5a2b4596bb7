/** The analysis layer's consistency checker: completeness of characters
    and world setting, names one letter apart, a missing outline, an empty
    timeline, and a missing protagonist or central conflict.  Unlike the
    tool layer's checker it asks no language model, and its chapter and
    timeline-conflict checks are stubs that never report anything.

    The extraction, the report and the recommendations are the shared ones
    of `Consistency`. */
module AnalysisConsistency {
  import opened Wrappers
  import opened Dicts
  import opened Seqs
  import opened Json
  import opened Consistency
  import Text

  // ---------------------------------------------------------------------
  // Name similarity

  /** `sum(c1 != c2 for c1, c2 in zip(a, b))`: the positions, up to the
      shorter length, at which the two sequences differ. */
  function Differing<T(==)>(a: seq<T>, b: seq<T>): nat {
    if |a| == 0 || |b| == 0 then 0
    else (if a[0] != b[0] then 1 else 0) + Differing(a[1..], b[1..])
  }

  /** Sequences of one length differ nowhere exactly when they are equal. */
  lemma {:induction false} DifferingNone<T>(a: seq<T>, b: seq<T>)
    requires |a| == |b|
    ensures Differing(a, b) == 0 <==> a == b
  {
    if |a| > 0 {
      DifferingNone(a[1..], b[1..]);
      if a[1..] == b[1..] && a[0] == b[0] {
        assert a == [a[0]] + a[1..] && b == [b[0]] + b[1..];
      }
    }
  }

  /** Two sequences of one length differ in at most one position exactly
      when no two positions both differ. */
  lemma {:induction false} DifferingAtMostOne<T>(a: seq<T>, b: seq<T>)
    requires |a| == |b|
    ensures Differing(a, b) <= 1 <==>
              forall i, j :: 0 <= i < j < |a| && a[i] != b[i] ==> a[j] == b[j]
  {
    if |a| > 0 {
      var a', b' := a[1..], b[1..];
      DifferingAtMostOne(a', b');
      DifferingNone(a', b');
      if a[0] != b[0] {
        if Differing(a, b) <= 1 {
          forall i, j | 0 <= i < j < |a| && a[i] != b[i] ensures a[j] == b[j] {
            assert a'[j - 1] == a[j] && b'[j - 1] == b[j];
          }
        } else {
          var k :| 0 <= k < |a'| && a'[k] != b'[k];
          assert a[k + 1] != b[k + 1];
        }
      } else {
        if Differing(a, b) <= 1 {
          forall i, j | 0 <= i < j < |a| && a[i] != b[i] ensures a[j] == b[j] {
            assert i > 0;
            assert a'[i - 1] == a[i] && b'[i - 1] == b[i];
            assert a'[j - 1] == a[j] && b'[j - 1] == b[j];
          }
        } else {
          var i, j :| 0 <= i < j < |a'| && a'[i] != b'[i] && a'[j] != b'[j];
          assert a[i + 1] != b[i + 1] && a[j + 1] != b[j + 1];
        }
      }
    }
  }

  /** The count does not depend on the order of the two sequences. */
  lemma {:induction false} DifferingSymmetric<T>(a: seq<T>, b: seq<T>)
    ensures Differing(a, b) == Differing(b, a)
  {
    if |a| > 0 && |b| > 0 {
      DifferingSymmetric(a[1..], b[1..]);
    }
  }

  /** The one-character strings a string iterates as. */
  function Chars(s: string): seq<Value> {
    Iterate(Str(s)).value
  }

  /** Iterating two strings differs where their characters differ. */
  lemma {:induction false} DifferingChars(s: string, t: string)
    ensures Differing(Chars(s), Chars(t)) == Differing(s, t)
  {
    if |s| > 0 && |t| > 0 {
      assert Chars(s)[1..] == Chars(s[1..]);
      assert Chars(t)[1..] == Chars(t[1..]);
      assert Chars(s)[0] == Str([s[0]]) && Chars(t)[0] == Str([t[0]]);
      assert Str([s[0]]) == Str([t[0]]) ==> [s[0]][0] == [t[0]][0];
      DifferingChars(s[1..], t[1..]);
    }
  }

  /** `_names_similar`: names of one length that differ in at most one
      position.  `len` raises on a name that is not sized. */
  function NamesSimilar(a: Value, b: Value): (r: Result<bool>)
    ensures r.Raise? <==> Len(a).Raise? || Len(b).Raise?
    ensures r.Raise? ==> r.exc == TypeError
  {
    var la :- Len(a);
    var lb :- Len(b);
    if la != lb then Ok(false)
    else Ok(Differing(Iterate(a).value, Iterate(b).value) <= 1)
  }

  /** Two string names are similar exactly when they have one length and
      no two positions both differ. */
  lemma NamesSimilarStrings(s: string, t: string)
    ensures NamesSimilar(Str(s), Str(t)) ==
              Ok(|s| == |t| && forall i, j :: 0 <= i < j < |s| && s[i] != t[i] ==> s[j] == t[j])
  {
    DifferingChars(s, t);
    if |s| == |t| {
      DifferingAtMostOne(s, t);
    }
  }

  /** A name is similar to itself, and similarity is symmetric. */
  lemma NamesSimilarSymmetric(a: Value, b: Value)
    ensures NamesSimilar(a, b) == NamesSimilar(b, a)
    ensures Len(a).Ok? ==> NamesSimilar(a, a) == Ok(true)
  {
    if Len(a).Ok? && Len(b).Ok? {
      DifferingSymmetric(Iterate(a).value, Iterate(b).value);
    }
    if Len(a).Ok? {
      DifferingNone(Iterate(a).value, Iterate(a).value);
    }
  }

  /** What `_find_similar_names(name)` contributes for one registered name. */
  function SimilarOf(name: Value, other: Value): (r: Result<seq<Value>>)
  {
    if other == name then Ok([])
    else
      var similar :- NamesSimilar(name, other);
      Ok(if similar then [other] else [])
  }

  /** `_find_similar_names`: the other registered names similar to `name`,
      in registration order. */
  function FindSimilarNames(reg: Dict<Value, Dict<string, Value>>, name: Value): Result<seq<Value>> {
    CollectFlat(Keys(reg), k => SimilarOf(name, k))
  }

  /** The search raises exactly when the similarity test of `name` with
      some other registered name raises. */
  lemma FindSimilarNamesRaise(reg: Dict<Value, Dict<string, Value>>, name: Value)
    ensures FindSimilarNames(reg, name).Raise? <==>
              exists k :: k in Keys(reg) && k != name && NamesSimilar(name, k).Raise?
    ensures FindSimilarNames(reg, name).Raise? ==> FindSimilarNames(reg, name).exc == TypeError
  {
    var ks := Keys(reg);
    var r := FindSimilarNames(reg, name);
    if r.Raise? {
      var i :| 0 <= i < |ks| && SimilarOf(name, ks[i]) == Raise(r.exc);
      assert ks[i] != name && NamesSimilar(name, ks[i]) == Raise(r.exc);
    }
    if exists k :: k in ks && k != name && NamesSimilar(name, k).Raise? {
      var k :| k in ks && k != name && NamesSimilar(name, k).Raise?;
      var i :| 0 <= i < |ks| && ks[i] == k;
      assert SimilarOf(name, ks[i]).Raise?;
    }
  }

  /** A completed search finds exactly the other registered names similar
      to `name`; in particular never `name` itself. */
  lemma FindSimilarNamesMembers(reg: Dict<Value, Dict<string, Value>>, name: Value, x: Value)
    requires FindSimilarNames(reg, name).Ok?
    ensures x in FindSimilarNames(reg, name).value <==>
              x in Keys(reg) && x != name && NamesSimilar(name, x) == Ok(true)
    ensures name !in FindSimilarNames(reg, name).value
  {
    var ks := Keys(reg);
    if x in ks && x != name && NamesSimilar(name, x) == Ok(true) {
      var i :| 0 <= i < |ks| && ks[i] == x;
      assert x in SimilarOf(name, ks[i]).value;
    }
  }

  // ---------------------------------------------------------------------
  // Characters

  /** The fields this checker requires of a character. */
  const InfoFields: seq<string> := ["name", "appearance", "personality", "background"]

  /** The required fields a character lacks, in the listed order. */
  function MissingInfo(ch: Dict<string, Value>): (r: seq<string>)
    ensures forall f :: f in r <==> f in InfoFields && Lacks(ch, f)
  {
    Filter(InfoFields, f => Lacks(ch, f))
  }

  function MissingIssue(name: Value, missing: seq<string>): (r: Issue)
    ensures r.kind == "character" && r.severity == "medium" && r.related == [name]
    ensures |r.suggestions| == |missing|
  {
    var n := Display(name);
    Issue("char_" + n + "_missing", "character", "medium", "角色" + n + "缺少必要信息",
          "角色设定-" + n,
          seq(|missing|, k requires 0 <= k < |missing| => "补充" + missing[k] + "信息"),
          [name])
  }

  function SimilarIssue(name: Value, similar: seq<Value>): (r: Issue)
    ensures r.kind == "character" && r.severity == "low" && r.related == [name] + similar
  {
    var n := Display(name);
    Issue("char_" + n + "_similar", "character", "low", "角色" + n + "与其他角色名称相似",
          "角色设定-" + n, ["考虑重新命名以避免混淆"], [name] + similar)
  }

  /** The issues of one registered character: a medium issue when it
      lacks a required field, a low one when another registered name is
      similar to its own. */
  function EntryIssues(reg: Dict<Value, Dict<string, Value>>, name: Value, ch: Dict<string, Value>)
    : (r: Result<seq<Issue>>)
    ensures r.Raise? <==> FindSimilarNames(reg, name).Raise?
    ensures r.Raise? ==> r.exc == FindSimilarNames(reg, name).exc
    ensures r.Ok? ==> |r.value| <= 2
    ensures r.Ok? ==> (MissingIssue(name, MissingInfo(ch)) in r.value <==> |MissingInfo(ch)| > 0)
    ensures r.Ok? ==>
              var similar := FindSimilarNames(reg, name).value;
              && (SimilarIssue(name, similar) in r.value <==> |similar| > 0)
              && forall x :: x in r.value ==> x == MissingIssue(name, MissingInfo(ch)) || x == SimilarIssue(name, similar)
  {
    var missing := MissingInfo(ch);
    var similar :- FindSimilarNames(reg, name);
    var a := MissingIssue(name, missing);
    var b := SimilarIssue(name, similar);
    var m := if |missing| > 0 then [a] else [];
    var s := if |similar| > 0 then [b] else [];
    assert a != b by { assert a.severity != b.severity; }
    forall x ensures x in m + s <==> (|missing| > 0 && x == a) || (|similar| > 0 && x == b) {
      OptionalPair(x, |missing| > 0, a, |similar| > 0, b);
    }
    Ok(m + s)
  }

  /** `_check_character_consistency` over the whole registry, in
      registration order. */
  function CharacterIssues(reg: Dict<Value, Dict<string, Value>>): (r: Result<seq<Issue>>)
    ensures r.Raise? <==> exists i :: 0 <= i < |reg| && FindSimilarNames(reg, reg[i].0).Raise?
    ensures r.Ok? ==> forall x :: x in r.value <==>
              exists i :: 0 <= i < |reg| && x in EntryIssues(reg, reg[i].0, reg[i].1).value
  {
    CollectFlat(reg, (e: (Value, Dict<string, Value>)) => EntryIssues(reg, e.0, e.1))
  }

  // ---------------------------------------------------------------------
  // Plot

  const NoOutlineIssue: Issue := Issue(
    "plot_no_outline", "plot", "high", "缺少故事大纲", "故事结构",
    ["创建详细的故事大纲"], [Str("story_structure")])

  /** `_check_chapter_connections`: it reads `chapters[i]` and
      `chapters[i - 1]` for each `i` from 1 and reports nothing.  Lists and
      strings index by position; a dictionary with string keys has no key
      `1`. */
  function ChapterConnections(chapters: Value): (r: Result<seq<Issue>>)
    requires Len(chapters).Ok? && Len(chapters).value > 1
    ensures r.Ok? ==> r.value == []
    ensures r.Raise? <==> chapters.Obj?
    ensures r.Raise? ==> r.exc == KeyError
  {
    if chapters.Obj? then Raise(KeyError) else Ok([])
  }

  /** `_check_plot_consistency`: a high issue for a missing or empty
      outline; the chapters are measured, and, when there are several,
      walked. */
  function PlotIssues(data: Value): (r: Result<seq<Issue>>)
    ensures !data.Obj? ==> r == Raise(AttributeError)
    ensures data.Obj? ==>
              var chapters := Field(data.fields, "chapters", List([]));
              && (r.Raise? <==> Len(chapters).Raise? || (chapters.Obj? && |chapters.fields| > 1))
              && (r.Ok? ==> (r.value == [NoOutlineIssue] <==> !Truthy(Field(data.fields, "outline", Obj([])))))
              && (r.Ok? ==> (r.value == [] <==> Truthy(Field(data.fields, "outline", Obj([])))))
  {
    var outline :- GetOr(data, "outline", Obj([]));
    var issues := if !Truthy(outline) then [NoOutlineIssue] else [];
    var chapters := Field(data.fields, "chapters", List([]));
    var n :- Len(chapters);
    if n > 1 then
      var more :- ChapterConnections(chapters);
      Ok(issues + more)
    else Ok(issues)
  }

  // ---------------------------------------------------------------------
  // World

  /** The parts a world setting must describe. */
  const WorldElements: seq<string> := ["geography", "culture", "power_system", "history"]

  /** The parts a world setting lacks, in the listed order. */
  function MissingElements(world: Dict<string, Value>): (r: seq<string>)
    ensures forall e :: e in r <==> e in WorldElements && Lacks(world, e)
  {
    Filter(WorldElements, e => Lacks(world, e))
  }

  function IncompleteWorldIssue(missing: seq<string>): (r: Issue)
    ensures r.kind == "world" && r.severity == "medium"
    ensures |r.related| == |missing| && forall k :: 0 <= k < |missing| ==> r.related[k] == Str(missing[k])
    ensures |r.suggestions| == |missing|
  {
    Issue("world_incomplete", "world", "medium", "世界设定不完整", "世界观设定",
          seq(|missing|, k requires 0 <= k < |missing| => "补充" + missing[k] + "相关设定"),
          seq(|missing|, k requires 0 <= k < |missing| => Str(missing[k])))
  }

  /** `_check_world_consistency`: one medium issue naming every missing
      part, when any is missing. */
  function WorldIssues(world: Value): (r: Result<seq<Issue>>)
    ensures r.Raise? <==> !world.Obj?
    ensures r.Raise? ==> r.exc == AttributeError
    ensures r.Ok? ==> (r.value == [] <==> forall e :: e in WorldElements ==> !Lacks(world.fields, e))
    ensures r.Ok? && r.value != [] ==> r.value == [IncompleteWorldIssue(MissingElements(world.fields))]
  {
    if !world.Obj? then Raise(AttributeError)
    else
      var missing := MissingElements(world.fields);
      Ok(if |missing| > 0 then [IncompleteWorldIssue(missing)] else [])
  }

  // ---------------------------------------------------------------------
  // Timeline

  const TimelineEmptyIssue: Issue := Issue(
    "timeline_empty", "timeline", "low", "缺少时间线事件", "时间线",
    ["创建详细的时间线"], [Str("timeline")])

  /** A conflict as `_find_timeline_conflicts` would describe it. */
  datatype Conflict = Conflict(description: string, events: seq<Value>)

  /** `_find_timeline_conflicts`: a stub that finds none. */
  function FindTimelineConflicts(events: seq<Value>): seq<Conflict> {
    []
  }

  /** The issues for the conflicts, numbered by the count of issues before
      each one. */
  function ConflictIssues(conflicts: seq<Conflict>, before: nat): (r: seq<Issue>)
    ensures |r| == |conflicts|
    ensures forall k :: 0 <= k < |r| ==> r[k].kind == "timeline" && r[k].severity == "high"
    decreases |conflicts|
  {
    if |conflicts| == 0 then []
    else
      [Issue("timeline_conflict_" + Text.NatToStr(before), "timeline", "high",
             conflicts[0].description, "时间线", ["调整事件时间安排"], conflicts[0].events)]
      + ConflictIssues(conflicts[1..], before + 1)
  }

  /** `_check_timeline_consistency`: a low issue when there are no events,
      then one per conflict found. */
  function TimelineIssues(events: seq<Value>): (r: seq<Issue>)
    ensures r == [TimelineEmptyIssue] <==> |events| == 0
    ensures r == [] <==> |events| > 0
  {
    var issues := if |events| == 0 then [TimelineEmptyIssue] else [];
    issues + ConflictIssues(FindTimelineConflicts(events), |issues|)
  }

  // ---------------------------------------------------------------------
  // Logic

  const NoProtagonistIssue: Issue := Issue(
    "logic_no_protagonist", "logic", "critical", "缺少明确的主角", "故事结构",
    ["确定故事主角"], [Str("protagonist")])

  const NoConflictIssue: Issue := Issue(
    "logic_no_conflict", "logic", "high", "缺少中心冲突", "故事结构",
    ["设定明确的中心冲突"], [Str("conflict")])

  /** `_check_logic_consistency`: a critical issue without a protagonist, a
      high one without a central conflict. */
  function LogicIssues(data: Value): (r: Result<seq<Issue>>)
    ensures r.Raise? <==> !data.Obj?
    ensures r.Raise? ==> r.exc == AttributeError
    ensures r.Ok? ==> forall x :: x in r.value ==> x == NoProtagonistIssue || x == NoConflictIssue
    ensures r.Ok? ==> (NoProtagonistIssue in r.value <==> !Truthy(Field(data.fields, "protagonist", Null)))
    ensures r.Ok? ==> (NoConflictIssue in r.value <==> !Truthy(Field(data.fields, "central_conflict", Null)))
  {
    if !data.Obj? then Raise(AttributeError)
    else
      var p := Truthy(Field(data.fields, "protagonist", Null));
      var c := Truthy(Field(data.fields, "central_conflict", Null));
      assert NoProtagonistIssue != NoConflictIssue by {
        assert NoProtagonistIssue.severity != NoConflictIssue.severity;
      }
      var ps := if !p then [NoProtagonistIssue] else [];
      var cs := if !c then [NoConflictIssue] else [];
      forall x ensures x in ps + cs <==> (!p && x == NoProtagonistIssue) || (!c && x == NoConflictIssue) {
        OptionalPair(x, !p, NoProtagonistIssue, !c, NoConflictIssue);
      }
      Ok(ps + cs)
  }

  // ---------------------------------------------------------------------
  // The checks as the tool runs them

  /** The five checks on an extracted state, in order. */
  function AllIssues(s: Checker, data: Value): Result<seq<Issue>> {
    var ci :- CharacterIssues(s.registry);
    var pi :- PlotIssues(data);
    var wi :- WorldIssues(s.world);
    var ti := TimelineIssues(s.events);
    var li :- LogicIssues(data);
    Ok(ci + pi + wi + ti + li)
  }

  /** `check_full_consistency`: extract, run the five checks in order and
      report on all their issues.  The extracted state is kept even when a
      check raises. */
  function FullCheck(c: Checker, data: Value): (r: (Result<Report>, Checker))
    ensures r.1 == Extract(c, data).1
    ensures r.0.Ok? ==> Extract(c, data).0.None?
    ensures r.0.Ok? ==>
              var s := r.1;
              && CharacterIssues(s.registry).Ok? && PlotIssues(data).Ok?
              && WorldIssues(s.world).Ok? && LogicIssues(data).Ok?
              && r.0.value.issues == CharacterIssues(s.registry).value + PlotIssues(data).value
                   + WorldIssues(s.world).value + TimelineIssues(s.events) + LogicIssues(data).value
  {
    var (e, s) := Extract(c, data);
    if e.Some? then (Raise(e.value), s)
    else
      match AllIssues(s, data)
      case Raise(x) => (Raise(x), s)
      case Ok(xs) => (Ok(GenerateReport(xs)), s)
  }

  /** The issues of an empty story: no outline, an incomplete world, an
      empty timeline, no protagonist and no central conflict. */
  const EmptyStoryIssues: seq<Issue> :=
    [NoOutlineIssue, IncompleteWorldIssue(WorldElements), TimelineEmptyIssue,
     NoProtagonistIssue, NoConflictIssue]

  /** An empty story, checked with nothing registered and no events, has
      exactly the five issues of a story that provides nothing. */
  lemma EmptyStoryFindings(c: Checker, data: Value)
    requires c.registry == [] && c.events == [] && data == Obj([])
    ensures FullCheck(c, data).0 == Ok(GenerateReport(EmptyStoryIssues))
  {
    ExtractEmpty(c, data);
    EmptyStoryAll(c.(world := data), data);
  }

  lemma EmptyStoryAll(s: Checker, data: Value)
    requires s.registry == [] && s.events == [] && s.world == data && data == Obj([])
    ensures AllIssues(s, data) == Ok(EmptyStoryIssues)
  {
    var w := IncompleteWorldIssue(WorldElements);
    EmptyCharacters(s.registry);
    EmptyPlot(data);
    EmptyWorld(data);
    EmptyLogic(data);
    AllIssuesOk(s, data, [], [NoOutlineIssue], [w], [NoProtagonistIssue, NoConflictIssue]);
    FiveInOrder(NoOutlineIssue, w, TimelineEmptyIssue, NoProtagonistIssue, NoConflictIssue);
  }

  /** The five checks in order, when the four that may raise do not. */
  lemma AllIssuesOk(s: Checker, data: Value, ci: seq<Issue>, pi: seq<Issue>, wi: seq<Issue>, li: seq<Issue>)
    requires CharacterIssues(s.registry) == Ok(ci) && PlotIssues(data) == Ok(pi)
    requires WorldIssues(s.world) == Ok(wi) && LogicIssues(data) == Ok(li)
    ensures AllIssues(s, data) == Ok(ci + pi + wi + TimelineIssues(s.events) + li)
  {
  }

  /** An empty registry has no character issues. */
  lemma EmptyCharacters(reg: Dict<Value, Dict<string, Value>>)
    requires reg == []
    ensures CharacterIssues(reg) == Ok([])
  {
  }

  /** Story data without an outline or chapters has only the outline issue. */
  lemma EmptyPlot(data: Value)
    requires data == Obj([])
    ensures PlotIssues(data) == Ok([NoOutlineIssue])
  {
    assert Field(data.fields, "outline", Obj([])) == Obj([]);
    assert Field(data.fields, "chapters", List([])) == List([]);
  }

  /** An empty world setting lacks every part. */
  lemma EmptyWorld(world: Value)
    requires world == Obj([])
    ensures WorldIssues(world) == Ok([IncompleteWorldIssue(WorldElements)])
  {
    assert MissingElements(world.fields) == WorldElements by {
      assert forall e :: e in WorldElements ==> Lacks(world.fields, e);
      FilterAll(WorldElements, e => Lacks(world.fields, e));
    }
  }

  /** Story data without a protagonist or a central conflict has both
      logic issues. */
  lemma EmptyLogic(data: Value)
    requires data == Obj([])
    ensures LogicIssues(data) == Ok([NoProtagonistIssue, NoConflictIssue])
  {
    assert Field(data.fields, "protagonist", Null) == Null;
    assert Field(data.fields, "central_conflict", Null) == Null;
    assert [NoProtagonistIssue] + [NoConflictIssue] == [NoProtagonistIssue, NoConflictIssue];
  }

  /** Those five issues weigh 33 out of 50, so the story scores 34, and
      every recommendation except the character one applies. */
  lemma EmptyStoryScore(issues: seq<Issue>)
    requires issues == EmptyStoryIssues
    ensures GenerateReport(issues).score == 34.0
    ensures GenerateReport(issues).recommendations == [RecMessages[1], RecMessages[2], RecMessages[3], RecMessages[4]]
  {
    assert Severities(issues) == ["high", "medium", "low", "critical", "high"];
    assert Kinds(issues) == ["plot", "world", "timeline", "logic", "logic"];
    FiveWeight(issues);
    FiveAdvice(issues);
  }

  /** Five issues of those severities weigh 33 of 50 and score 34. */
  lemma FiveWeight(issues: seq<Issue>)
    requires Severities(issues) == ["high", "medium", "low", "critical", "high"]
    ensures OverallScore(issues) == 34.0
  {
    assert |issues| == 5;
    assert TotalSeverity(issues[4..]) == 8 by { assert issues[4].severity == "high"; }
    assert TotalSeverity(issues[3..]) == 18 by { assert issues[3].severity == "critical"; }
    assert TotalSeverity(issues[2..]) == 20 by { assert issues[2].severity == "low"; }
    assert TotalSeverity(issues[1..]) == 25 by { assert issues[1].severity == "medium"; }
    assert TotalSeverity(issues) == 33 by { assert issues[0].severity == "high"; }
  }

  /** Five issues of those kinds, one of them critical, get every
      recommendation but the character one. */
  lemma FiveAdvice(issues: seq<Issue>)
    requires Severities(issues) == ["high", "medium", "low", "critical", "high"]
    requires Kinds(issues) == ["plot", "world", "timeline", "logic", "logic"]
    ensures Recommendations(issues) == [RecMessages[1], RecMessages[2], RecMessages[3], RecMessages[4]]
  {
    assert !Triggered(issues, 0) by {
      assert forall i :: 0 <= i < |issues| ==> Kinds(issues)[i] == issues[i].kind;
    }
    assert Triggered(issues, 1) by { assert issues[0].kind == "plot"; }
    assert Triggered(issues, 2) by { assert issues[1].kind == "world"; }
    assert Triggered(issues, 3) by { assert issues[2].kind == "timeline"; }
    assert Triggered(issues, 4) by { assert issues[3].severity == "critical"; }
    RecommendationStep(issues, 0);
    RecommendationStep(issues, 1);
    RecommendationStep(issues, 2);
    RecommendationStep(issues, 3);
    RecommendationStep(issues, 4);
    assert RecommendationsFrom(issues, 5) == [];
    FourInOrder(RecMessages[1], RecMessages[2], RecMessages[3], RecMessages[4]);
  }

  /** Appending one-item lists builds the list of the five items. */
  lemma FiveInOrder<T>(a: T, b: T, c: T, d: T, e: T)
    ensures [] + [a] + [b] + [c] + [d, e] == [a, b, c, d, e]
  {
  }

  /** Prepending one-item lists builds the list of the four items. */
  lemma FourInOrder<T>(a: T, b: T, c: T, d: T)
    ensures [a] + ([b] + ([c] + ([d] + []))) == [a, b, c, d]
  {
  }

  /** `check_chapter_consistency`: reports nothing.  Looking a focused name
      up in the registry raises for a name that cannot be a key; the
      per-character and plot-logic checks it then calls are stubs. */
  function ChapterCheck(c: Checker, chapter: Value): (r: Result<seq<Issue>>)
    ensures r.Ok? ==> r.value == []
    ensures r.Raise? <==> (!chapter.Obj? ||
              Iterate(Field(chapter.fields, "character_focus", List([]))).Raise? ||
              exists x :: x in Iterate(Field(chapter.fields, "character_focus", List([]))).value && !Hashable(x))
    ensures !chapter.Obj? ==> r == Raise(AttributeError)
  {
    var focus :- GetOr(chapter, "character_focus", List([]));
    var names :- Iterate(focus);
    if forall x | x in names :: Hashable(x) then Ok([]) else Raise(TypeError)
  }



  /** `ConsistencyCheckerTool.execute` of the analysis layer. */
  function Execute(c: Checker, params: Value): (r: (Result<Reply>, Checker))
    ensures !params.Obj? ==> r == (Raise(AttributeError), c)
    ensures params.Obj? && Field(params.fields, "check_type", Null) !in CheckTypes ==>
              r == (Ok(ErrorReply("不支持的检查类型")), c)
    ensures params.Obj? && Field(params.fields, "check_type", Null) == Str("chapter") ==>
              r.1 == c && (r.0.Ok? ==> r.0.value == IssuesReply("chapter_issues", []))
    ensures params.Obj? && Field(params.fields, "check_type", Null) == Str("world") ==>
              r.1 == c.(world := Field(params.fields, "world_setting", Obj([])))
  {
    if !params.Obj? then (Raise(AttributeError), c)
    else
      var p := params.fields;
      var kind := Field(p, "check_type", Null);
      if kind == Str("full") then
        var (rep, s) := FullCheck(c, Field(p, "story_data", Obj([])));
        (if rep.Ok? then Ok(ReportReply(rep.value)) else Raise(rep.exc), s)
      else if kind == Str("character") then
        Consistency.CharacterCheck(c, Field(p, "characters", List([])), CharacterIssues)
      else if kind == Str("world") then
        var ws := Field(p, "world_setting", Obj([]));
        var issues := WorldIssues(ws);
        (if issues.Ok? then Ok(IssuesReply("world_issues", issues.value)) else Raise(issues.exc),
         c.(world := ws))
      else if kind == Str("chapter") then
        var issues := ChapterCheck(c, Field(p, "chapter", Obj([])));
        (if issues.Ok? then Ok(IssuesReply("chapter_issues", issues.value)) else Raise(issues.exc), c)
      else (Ok(ErrorReply("不支持的检查类型")), c)
  }

  /** The plot and timeline check types are advertised but have no branch:
      both answer with the error. */
  lemma PlotAndTimelineUnsupported(c: Checker, params: Dict<string, Value>)
    requires Field(params, "check_type", Null) in [Str("plot"), Str("timeline")]
    ensures Execute(c, Obj(params)) == (Ok(ErrorReply("不支持的检查类型")), c)
  {
    var kind := Field(params, "check_type", Null);
    assert kind !in CheckTypes by {
      assert kind.s[0] in "pt";
    }
  }
}
