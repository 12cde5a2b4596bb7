/** What the two consistency checkers of the system (the tool layer's and
    the analysis layer's) have in common: the issue and report records,
    the severity weights and overall score, the tallies and the fixed
    recommendations, and the checker's own state — a character registry
    keyed by name, the current world setting and the timeline events
    accumulated from every story checked so far.

    Both checkers build their state from the story data with the same
    extraction code, and both keep whatever was registered before a step
    that raises. */
module Consistency {
  import opened Wrappers
  import opened Dicts
  import opened Seqs
  import opened Json
  import PyNum

  /** One finding: `kind` is the issue type (character, plot, world,
      timeline or logic) and `severity` one of low, medium, high, critical. */
  datatype Issue = Issue(
    id: string,
    kind: string,
    severity: string,
    description: string,
    location: string,
    suggestions: seq<string>,
    related: seq<Value>)

  datatype Report = Report(
    score: real,
    count: nat,
    byType: Freq<string>,
    bySeverity: Freq<string>,
    issues: seq<Issue>,
    recommendations: seq<string>)

  /** What a tool returns: a full report, a list of issues under a key, or
      an error message. */
  datatype Reply =
    | ReportReply(report: Report)
    | IssuesReply(key: string, issues: seq<Issue>)
    | ErrorReply(message: string)

  /** The four check types both tools dispatch on. */
  const CheckTypes: seq<Value> := [Str("full"), Str("character"), Str("world"), Str("chapter")]

  // ---------------------------------------------------------------------
  // Scoring

  /** The weight of a severity; anything unrecognised weighs as medium. */
  function SeverityScore(severity: string): (w: nat)
    ensures 2 <= w <= 10
    ensures w == 2 <==> severity == "low"
    ensures w == 8 <==> severity == "high"
    ensures w == 10 <==> severity == "critical"
    ensures severity == "medium" ==> w == 5
    ensures severity !in {"low", "medium", "high", "critical"} ==> w == 5
  {
    if severity == "low" then 2
    else if severity == "high" then 8
    else if severity == "critical" then 10
    else 5
  }

  /** The summed weights of all issues. */
  function TotalSeverity(issues: seq<Issue>): nat {
    if |issues| == 0 then 0 else SeverityScore(issues[0].severity) + TotalSeverity(issues[1..])
  }

  predicate AllSeverity(issues: seq<Issue>, severity: string) {
    forall i :: 0 <= i < |issues| ==> issues[i].severity == severity
  }

  /** Each issue weighs between 2 and 10, so the total lies between 2 and
      10 per issue, with the top reached only by all-critical issues and
      the bottom only by all-low ones. */
  lemma {:induction false} TotalSeverityBounds(issues: seq<Issue>)
    ensures 2 * |issues| <= TotalSeverity(issues) <= 10 * |issues|
    ensures TotalSeverity(issues) == 10 * |issues| <==> AllSeverity(issues, "critical")
    ensures TotalSeverity(issues) == 2 * |issues| <==> AllSeverity(issues, "low")
  {
    if |issues| > 0 {
      var rest := issues[1..];
      TotalSeverityBounds(rest);
      assert forall i :: 1 <= i < |issues| ==> issues[i] == rest[i - 1];
      if AllSeverity(rest, "critical") && issues[0].severity == "critical" {
        assert AllSeverity(issues, "critical");
      }
      if AllSeverity(rest, "low") && issues[0].severity == "low" {
        assert AllSeverity(issues, "low");
      }
    }
  }

  /** The ratio of a total to its maximum, for totals between a fifth and
      the whole of it. */
  lemma RatioBounds(t: nat, m: nat)
    requires m > 0 && 2 * m <= 10 * t <= 10 * m
    ensures 0.2 <= t as real / m as real <= 1.0
    ensures t as real / m as real == 1.0 <==> t == m
    ensures 10 * t == 2 * m ==> t as real / m as real == 0.2
  {
    var q := t as real / m as real;
    assert q * m as real == t as real;
    assert t as real >= 0.2 * m as real;
  }

  /** A share of ten per item, as a percentage, is ten times the average. */
  lemma PerTen(t: real, n: real)
    requires n > 0.0
    ensures (t / (10.0 * n)) * 100.0 == 10.0 * t / n
  {
    var q := t / (10.0 * n);
    assert q * (10.0 * n) == t;
    assert (q * 100.0) * n == 10.0 * t;
  }

  /** `max(0, 100 - total / max_possible * 100)`, where `max_possible` is
      ten per issue (one when there are none). */
  function OverallScore(issues: seq<Issue>): (r: real)
    ensures 0.0 <= r <= 100.0
    ensures r == 100.0 <==> |issues| == 0
    ensures |issues| > 0 ==> r <= 80.0
    ensures r == 0.0 <==> |issues| > 0 && AllSeverity(issues, "critical")
    ensures |issues| > 0 && AllSeverity(issues, "low") ==> r == 80.0
    ensures |issues| > 0 ==> r == 100.0 - 10.0 * (TotalSeverity(issues) as real) / (|issues| as real)
  {
    var total := TotalSeverity(issues);
    var maxPossible := if |issues| > 0 then 10 * |issues| else 1;
    TotalSeverityBounds(issues);
    if |issues| > 0 then
      RatioBounds(total, maxPossible);
      PerTen(total as real, |issues| as real);
      PyNum.MaxR(0.0, 100.0 - (total as real / maxPossible as real) * 100.0)
    else
      PyNum.MaxR(0.0, 100.0 - (total as real / maxPossible as real) * 100.0)
  }

  // ---------------------------------------------------------------------
  // Tallies and recommendations

  function Kinds(issues: seq<Issue>): (r: seq<string>)
    ensures |r| == |issues| && forall i :: 0 <= i < |issues| ==> r[i] == issues[i].kind
  {
    seq(|issues|, i requires 0 <= i < |issues| => issues[i].kind)
  }

  function Severities(issues: seq<Issue>): (r: seq<string>)
    ensures |r| == |issues| && forall i :: 0 <= i < |issues| ==> r[i] == issues[i].severity
  {
    seq(|issues|, i requires 0 <= i < |issues| => issues[i].severity)
  }

  /** The issue types that have a recommendation, in the order the
      recommendations are listed; the fifth recommendation is for critical
      issues of any type. */
  const RecTypes: seq<string> := ["character", "plot", "world", "timeline"]

  const RecMessages: seq<string> := [
    "完善角色设定，确保信息完整性",
    "检查情节逻辑，加强前后连接",
    "统一世界观设定，避免内部矛盾",
    "整理时间线，解决时间冲突",
    "优先处理严重问题，确保故事可读性"
  ]

  /** Whether recommendation `k` applies to `issues`. */
  predicate Triggered(issues: seq<Issue>, k: nat)
    requires k < 5
  {
    if k < 4 then exists i :: 0 <= i < |issues| && issues[i].kind == RecTypes[k]
    else exists i :: 0 <= i < |issues| && issues[i].severity == "critical"
  }

  /** The five messages are different. */
  lemma RecMessagesDistinct()
    ensures Distinct(RecMessages)
  {
    forall i, j | 0 <= i < j < 5 ensures RecMessages[i] != RecMessages[j] {
      assert RecMessages[i][0] != RecMessages[j][0];
    }
  }

  /** Which recommendations apply to `issues`, by number. */
  function Advises(issues: seq<Issue>): nat -> bool {
    (j: nat) => j < 5 && Triggered(issues, j)
  }

  /** The recommendations from number `k` on. */
  function RecommendationsFrom(issues: seq<Issue>, k: nat): seq<string>
    requires k <= 5
  {
    Select(RecMessages, Advises(issues), k)
  }

  /** The recommendations from number `k` on: recommendation `k` when it
      applies, then the rest. */
  lemma RecommendationStep(issues: seq<Issue>, k: nat)
    requires k < 5
    ensures RecommendationsFrom(issues, k) ==
              (if Triggered(issues, k) then [RecMessages[k]] else []) + RecommendationsFrom(issues, k + 1)
  {
    SelectStep(RecMessages, Advises(issues), k);
  }

  /** One fixed recommendation per issue type present, and one more when
      any issue is critical, each at most once and in the order of the
      list. */
  function Recommendations(issues: seq<Issue>): (r: seq<string>)
    ensures forall k :: 0 <= k < 5 ==> (RecMessages[k] in r <==> Triggered(issues, k))
    ensures forall m :: m in r ==> m in RecMessages
    ensures InOrderFrom(r, RecMessages, 0) && Distinct(r)
    ensures |r| <= 5
  {
    var r := RecommendationsFrom(issues, 0);
    RecMessagesDistinct();
    SelectDistinct(RecMessages, Advises(issues), 0);
    r
  }

  /** `_generate_report`: the score, the issue count, the per-type and
      per-severity tallies, the issues themselves and the recommendations. */
  function GenerateReport(issues: seq<Issue>): (r: Report)
    ensures r.issues == issues && r.count == |issues|
    ensures IsTallyOf(r.byType, Kinds(issues)) && Total(r.byType) == |issues|
    ensures IsTallyOf(r.bySeverity, Severities(issues)) && Total(r.bySeverity) == |issues|
    ensures r.score == OverallScore(issues)
    ensures r.recommendations == Recommendations(issues)
  {
    TallyCorrect(Kinds(issues));
    TallyCorrect(Severities(issues));
    Report(OverallScore(issues), |issues|, Tally(Kinds(issues)), Tally(Severities(issues)),
           issues, Recommendations(issues))
  }

  /** A report without issues scores 100 and recommends nothing. */
  lemma EmptyReport(issues: seq<Issue>)
    requires issues == []
    ensures GenerateReport(issues).score == 100.0
    ensures GenerateReport(issues).recommendations == []
  {
    assert forall k :: 0 <= k < 5 ==> !Triggered(issues, k);
  }

  /** Membership in a list of at most two conditionally included items. */
  lemma OptionalPair<T>(x: T, c1: bool, a: T, c2: bool, b: T)
    ensures x in (if c1 then [a] else []) + (if c2 then [b] else []) <==> (c1 && x == a) || (c2 && x == b)
  {
  }

  // ---------------------------------------------------------------------
  // Checker state

  datatype Checker = Checker(
    registry: Dict<Value, Dict<string, Value>>,
    world: Value,
    events: seq<Value>)

  /** A checker as constructed: nothing registered, an empty world, no
      events. */
  const Fresh: Checker := Checker([], Obj([]), [])

  /** A field counts as missing when it is absent or falsy (`not
      d.get(field)`). */
  predicate Lacks(d: Dict<string, Value>, field: string) {
    !Truthy(Field(d, field, Null))
  }

  /** `char.get("name", "")` of a character dictionary. */
  function NameOf(fields: Dict<string, Value>): Value {
    Field(fields, "name", Str(""))
  }

  /** Whether registering `item` raises: a dictionary whose name cannot be
      a key, or (when `strict`) anything that is not a dictionary. */
  predicate Rejects(item: Value, strict: bool) {
    if item.Obj? then !Hashable(NameOf(item.fields)) else strict
  }

  /** The name an item is registered under, if it is registered at all. */
  predicate Names(item: Value, k: Value) {
    item.Obj? && NameOf(item.fields) == k
  }

  /** No later item is registered under the name of item `i`. */
  predicate LastNamed(items: seq<Value>, i: nat)
    requires i < |items| && items[i].Obj?
  {
    forall j :: i < j < |items| ==> !Names(items[j], NameOf(items[i].fields))
  }

  /** `registry[char.get("name", "")] = char` for one character dictionary. */
  function Enroll(c: Checker, f: Dict<string, Value>): (r: Checker)
    ensures r.world == c.world && r.events == c.events
    ensures Get(r.registry, NameOf(f)) == Some(f)
  {
    c.(registry := Put(c.registry, NameOf(f), f))
  }

  /** `registry[char.get("name", "")] = char` for each item in order.  The
      extraction step skips items that are not dictionaries (`strict`
      false); the character check calls `.get` on every item, so there a
      non-dictionary raises `AttributeError`. */
  function Register(c: Checker, items: seq<Value>, strict: bool): (r: (Option<Exc>, Checker))
    ensures r.1.world == c.world && r.1.events == c.events
    decreases |items|
  {
    if |items| == 0 then (None, c)
    else
      var rest := items[1..];
      if Rejects(items[0], strict) then
        (Some(if items[0].Obj? then TypeError else AttributeError), c)
      else if items[0].Obj? then
        Register(Enroll(c, items[0].fields), rest, strict)
      else
        Register(c, rest, strict)
  }

  /** Registration completes exactly when no item is rejected. */
  lemma {:induction false} RegisterCompletes(c: Checker, items: seq<Value>, strict: bool)
    ensures Register(c, items, strict).0.None? <==> forall i :: 0 <= i < |items| ==> !Rejects(items[i], strict)
    decreases |items|
  {
    if |items| > 0 && !Rejects(items[0], strict) {
      var rest := items[1..];
      assert forall i :: 1 <= i < |items| ==> items[i] == rest[i - 1];
      if items[0].Obj? {
        RegisterCompletes(Enroll(c, items[0].fields), rest, strict);
      } else {
        RegisterCompletes(c, rest, strict);
      }
    }
  }

  /** Registration keeps the registry free of repeated keys. */
  lemma {:induction false} RegisterValid(c: Checker, items: seq<Value>, strict: bool)
    requires Valid(c.registry)
    ensures Valid(Register(c, items, strict).1.registry)
    decreases |items|
  {
    if |items| > 0 && !Rejects(items[0], strict) {
      if items[0].Obj? {
        var f := items[0].fields;
        RegisterValid(Enroll(c, f), items[1..], strict);
      } else {
        RegisterValid(c, items[1..], strict);
      }
    }
  }

  /** A key that no item is registered under keeps its entry, even when
      registration stops early. */
  lemma {:induction false} RegisterOthersUnchanged(c: Checker, items: seq<Value>, strict: bool, k: Value)
    requires forall i :: 0 <= i < |items| ==> !Names(items[i], k)
    ensures Get(Register(c, items, strict).1.registry, k) == Get(c.registry, k)
    decreases |items|
  {
    if |items| > 0 && !Rejects(items[0], strict) {
      var rest := items[1..];
      assert forall i :: 1 <= i < |items| ==> items[i] == rest[i - 1];
      if items[0].Obj? {
        var f := items[0].fields;
        RegisterOthersUnchanged(Enroll(c, f), rest, strict, k);
      } else {
        RegisterOthersUnchanged(c, rest, strict, k);
      }
    }
  }

  /** The checker after registering one accepted item. */
  function Step(c: Checker, item: Value): Checker {
    if item.Obj? then Enroll(c, item.fields) else c
  }

  /** Registration of an accepted first item continues from its step. */
  lemma RegisterStep(c: Checker, items: seq<Value>, strict: bool)
    requires |items| > 0 && !Rejects(items[0], strict)
    ensures Register(c, items, strict) == Register(Step(c, items[0]), items[1..], strict)
  {
  }

  /** The last item of a name stays the last in the items after the first. */
  lemma LastNamedTail(items: seq<Value>, i: nat)
    requires 0 < i < |items| && items[i].Obj? && LastNamed(items, i)
    ensures items[1..][i - 1] == items[i] && LastNamed(items[1..], i - 1)
  {
    var rest := items[1..];
    forall j | i - 1 < j < |rest| ensures !Names(rest[j], NameOf(rest[i - 1].fields)) {
      assert rest[j] == items[j + 1];
    }
  }

  /** No item after the first carries the first's name when the first is
      the last of its name. */
  lemma LastNamedFirst(items: seq<Value>)
    requires 0 < |items| && items[0].Obj? && LastNamed(items, 0)
    ensures forall j :: 0 <= j < |items[1..]| ==> !Names(items[1..][j], NameOf(items[0].fields))
  {
    var rest := items[1..];
    forall j | 0 <= j < |rest| ensures !Names(rest[j], NameOf(items[0].fields)) {
      assert rest[j] == items[j + 1];
    }
  }

  /** After a complete registration, the entry under each dictionary's name
      is the last dictionary of that name. */
  lemma {:induction false} RegisterLastWins(c: Checker, items: seq<Value>, strict: bool, i: nat)
    requires i < |items| && items[i].Obj? && LastNamed(items, i)
    requires Register(c, items, strict).0.None?
    ensures Get(Register(c, items, strict).1.registry, NameOf(items[i].fields)) == Some(items[i].fields)
    decreases |items|
  {
    assert !Rejects(items[0], strict);
    RegisterStep(c, items, strict);
    var c1 := Step(c, items[0]);
    if i == 0 {
      LastNamedFirst(items);
      RegisterOthersUnchanged(c1, items[1..], strict, NameOf(items[0].fields));
    } else {
      LastNamedTail(items, i);
      RegisterLastWins(c1, items[1..], strict, i - 1);
    }
  }

  /** After a complete registration every dictionary's name is a key. */
  lemma RegisterNamesPresent(c: Checker, items: seq<Value>, strict: bool, i: nat)
    requires i < |items| && items[i].Obj?
    requires Register(c, items, strict).0.None?
    ensures NameOf(items[i].fields) in Keys(Register(c, items, strict).1.registry)
  {
    var k := NameOf(items[i].fields);
    var last :| i <= last < |items| && items[last].Obj? && NameOf(items[last].fields) == k &&
                LastNamed(items, last) by {
      LastNamedExists(items, i);
    }
    RegisterLastWins(c, items, strict, last);
  }

  /** Some item from `i` on is the last to carry item `i`'s name. */
  lemma LastNamedExists(items: seq<Value>, i: nat)
    requires i < |items| && items[i].Obj?
    ensures exists last :: i <= last < |items| && items[last].Obj? &&
              NameOf(items[last].fields) == NameOf(items[i].fields) && LastNamed(items, last)
    decreases |items| - i
  {
    var k := NameOf(items[i].fields);
    if !LastNamed(items, i) {
      var j :| i < j < |items| && Names(items[j], k);
      LastNamedExists(items, j);
    }
  }

  /** `check_character_consistency`, shared by both checkers up to the
      per-character `check`: register every item (each must be a
      dictionary), then check the whole registry.  It succeeds exactly
      when the characters can be iterated, every item registers and the
      check passes; what was registered before a raise stays registered. */
  function CharacterCheck(c: Checker, characters: Value,
                          check: Dict<Value, Dict<string, Value>> -> Result<seq<Issue>>): (r: (Result<Reply>, Checker))
    ensures r.1.world == c.world && r.1.events == c.events
    ensures Iterate(characters).Raise? ==> r == (Raise(TypeError), c)
    ensures Iterate(characters).Ok? ==> r.1 == Register(c, Iterate(characters).value, true).1
    ensures r.0.Ok? <==>
              && Iterate(characters).Ok?
              && Register(c, Iterate(characters).value, true).0.None?
              && check(r.1.registry).Ok?
    ensures r.0.Ok? ==> r.0.value == IssuesReply("character_issues", check(r.1.registry).value)
  {
    match Iterate(characters)
    case Raise(x) => (Raise(x), c)
    case Ok(items) =>
      var (e, s) := Register(c, items, true);
      if e.Some? then (Raise(e.value), s)
      else
        var issues := check(s.registry);
        (if issues.Ok? then Ok(IssuesReply("character_issues", issues.value)) else Raise(issues.exc), s)
  }

  /** `timeline.get("events", [])` of a timeline dictionary. */
  function EventsOf(timeline: Value): Value
    requires timeline.Obj?
  {
    Field(timeline.fields, "events", List([]))
  }

  /** What `timeline_events.extend(timeline.get("events", []))` appends for
      one timeline: the iterated events of a dictionary (a `TypeError` when
      they cannot be iterated), nothing for anything else, which the loop
      skips. */
  function Contribution(timeline: Value): (r: Result<seq<Value>>)
    ensures r.Raise? ==> r.exc == TypeError
  {
    if timeline.Obj? then Iterate(EventsOf(timeline)) else Ok([])
  }

  /** Whether `timeline` is a dictionary whose events can be iterated. */
  predicate Extendable(timeline: Value) {
    timeline.Obj? ==> Iterate(EventsOf(timeline)).Ok?
  }

  /** The events the timelines contribute, in order. */
  function AllNew(timelines: seq<Value>): seq<Value> {
    Joined(timelines, Contribution)
  }

  /** An event is contributed exactly when some dictionary timeline whose
      events can be iterated holds it. */
  lemma AllNewMembers(timelines: seq<Value>, e: Value)
    ensures e in AllNew(timelines) <==>
              exists i :: 0 <= i < |timelines| && timelines[i].Obj? &&
                Iterate(EventsOf(timelines[i])).Ok? && e in Iterate(EventsOf(timelines[i])).value
  {
    JoinedMembers(timelines, Contribution, e);
  }

  /** `timeline_events.extend(timeline.get("events", []))` for each
      dictionary timeline in order.  A timeline whose events cannot be
      iterated stops the loop with a `TypeError`, keeping what was appended
      so far. */
  function ExtendEvents(c: Checker, timelines: seq<Value>): (r: (Option<Exc>, Checker))
    ensures r.1.registry == c.registry && r.1.world == c.world
    ensures r.0.None? <==> forall i :: 0 <= i < |timelines| ==> Extendable(timelines[i])
    ensures r.0.Some? ==> r.0.value == TypeError
  {
    ExtendJoins(c.events, timelines, Contribution);
    var (e, events) := Extend(c.events, timelines, Contribution);
    (e, c.(events := events))
  }

  /** The index of the first timeline that stops `ExtendEvents`, or the
      number of timelines when none does. */
  function Stuck(timelines: seq<Value>): (k: nat)
    ensures k <= |timelines|
    ensures forall i :: 0 <= i < k ==> Extendable(timelines[i])
    ensures k < |timelines| ==> !Extendable(timelines[k])
  {
    FirstRaise(timelines, Contribution)
  }

  /** Whatever the outcome, the events end up as the old events followed by
      those of every timeline before the first one that stops the loop. */
  lemma ExtendEventsAppends(c: Checker, timelines: seq<Value>)
    ensures ExtendEvents(c, timelines).1.events == c.events + AllNew(timelines[..Stuck(timelines)])
  {
    ExtendJoins(c.events, timelines, Contribution);
  }

  /** The old events stay in front; on success exactly the events of the
      dictionary timelines follow them. */
  lemma ExtendEventsPrefix(c: Checker, timelines: seq<Value>)
    ensures var r := ExtendEvents(c, timelines);
            |r.1.events| >= |c.events| && r.1.events[..|c.events|] == c.events
    ensures ExtendEvents(c, timelines).0.None? ==>
              ExtendEvents(c, timelines).1.events == c.events + AllNew(timelines)
  {
    ExtendEventsAppends(c, timelines);
    var r := ExtendEvents(c, timelines);
    assert r.1.events[..|c.events|] == c.events;
    if r.0.None? {
      assert timelines[..Stuck(timelines)] == timelines;
    }
  }

  /** `_extract_story_elements`: register the dictionary characters, take
      the world setting, and append the events of the dictionary
      timelines.  Steps done before a step that raises stay done. */
  function Extract(c: Checker, data: Value): (r: (Option<Exc>, Checker))
    ensures !data.Obj? ==> r == (Some(AttributeError), c)
    ensures r.0.None? ==> r.1.world == Field(data.fields, "world_setting", Obj([]))
    ensures |r.1.events| >= |c.events| && r.1.events[..|c.events|] == c.events
    ensures r.0.None? <==>
              data.Obj? && ExtractOk(data.fields)
  {
    if !data.Obj? then (Some(AttributeError), c)
    else
      var fields := data.fields;
      var characters := Field(fields, "characters", List([]));
      match Iterate(characters)
      case Raise(e) => (Some(e), c)
      case Ok(items) =>
        RegisterCompletes(c, items, false);
        var (e1, c1) := Register(c, items, false);
        if e1.Some? then (e1, c1)
        else
          var c2 := c1.(world := Field(fields, "world_setting", Obj([])));
          var timelines := Field(fields, "timelines", Obj([]));
          if !timelines.Obj? then (Some(AttributeError), c2)
          else
            ExtendEventsPrefix(c2, Dicts.Values(timelines.fields));
            ExtendEvents(c2, Dicts.Values(timelines.fields))
  }

  /** The conditions under which extraction completes: the characters are
      iterable with hashable names, the timelines form a dictionary, and
      each dictionary timeline's events are iterable. */
  predicate ExtractOk(fields: Dict<string, Value>) {
    var items := Iterate(Field(fields, "characters", List([])));
    var timelines := Field(fields, "timelines", Obj([]));
    && items.Ok?
    && (forall i :: 0 <= i < |items.value| ==> !Rejects(items.value[i], false))
    && timelines.Obj?
    && (forall i :: 0 <= i < |timelines.fields| ==> Extendable(timelines.fields[i].1))
  }

  /** The number of events one extraction of `data` appends. */
  function ExtractedCount(data: Value): nat
    requires data.Obj? && ExtractOk(data.fields)
  {
    var timelines := Field(data.fields, "timelines", Obj([]));
    |AllNew(Dicts.Values(timelines.fields))|
  }

  /** Extraction appends without deduplicating: checking the same story
      twice leaves its events in the list twice, after whatever earlier
      checks left there. */
  lemma ExtractTwiceAccumulates(c: Checker, data: Value)
    requires data.Obj? && ExtractOk(data.fields)
    ensures Extract(c, data).0.None?
    ensures Extract(Extract(c, data).1, data).0.None?
    ensures |Extract(Extract(c, data).1, data).1.events| == |c.events| + 2 * ExtractedCount(data)
  {
    ExtractCount(c, data);
    ExtractCount(Extract(c, data).1, data);
  }

  lemma ExtractCount(c: Checker, data: Value)
    requires data.Obj? && ExtractOk(data.fields)
    ensures Extract(c, data).0.None?
    ensures |Extract(c, data).1.events| == |c.events| + ExtractedCount(data)
  {
    var fields := data.fields;
    var items := Iterate(Field(fields, "characters", List([]))).value;
    var c2 := Register(c, items, false).1.(world := Field(fields, "world_setting", Obj([])));
    var timelines := Field(fields, "timelines", Obj([]));
    ExtendEventsPrefix(c2, Dicts.Values(timelines.fields));
  }

  /** Extracting an empty story registers nothing, appends nothing and
      leaves an empty world. */
  lemma ExtractEmpty(c: Checker, data: Value)
    requires data == Obj([])
    ensures Extract(c, data) == (None, c.(world := data))
  {
    assert Iterate(List([])) == Ok([]);
    assert Register(c, [], false) == (None, c);
    assert Dicts.Values<string, Value>([]) == [];
    assert ExtendEvents(c.(world := data), []) == (None, c.(world := data));
  }
}
