/** Story timelines and their clashes (`TimelineManager` and
    `TimelineManagerTool` in modules/tools/timeline_manager.py).

    The manager keeps its timelines in an insertion-ordered dictionary
    keyed by timeline id.  `global_timeline` is always the very object
    stored under "main_timeline" (only `create_main_timeline` sets either),
    so the model reads it from the dictionary instead of keeping a copy
    that could drift.  Timestamps are free text; `_parse_timestamp` turns
    "N年前" into -N, "第N个月" into N, "第N章" into 30N and anything
    without those markers into 0, and raises `ValueError` when a marked
    timestamp does not reduce to an integer.  Two events clash when they
    carry the same timestamp text and share a character. */
module TimelineManager {
  import opened Wrappers
  import Seqs
  import opened Dicts
  import Text
  import StoryPlanner

  datatype Event = Event(
    id: string,
    name: string,
    description: string,
    timestamp: string,
    chapter: Option<int>,
    characters: seq<string>,
    location: string,
    kind: string,
    importance: int,
    consequences: seq<string>,
    prerequisites: seq<string>)

  datatype Timeline = Timeline(
    id: string,
    name: string,
    description: string,
    timeScale: string,
    events: seq<Event>,
    startTime: string,
    endTime: string)

  /** The manager's `timelines` dictionary. */
  type Store = Dict<string, Timeline>

  const MainId := "main_timeline"

  /** Every timeline is stored under its own id. */
  predicate WellKeyed(d: Store) {
    Valid(d) && forall i :: 0 <= i < |d| ==> d[i].1.id == d[i].0
  }

  /** `global_timeline`. */
  function Global(d: Store): Option<Timeline> {
    Get(d, MainId)
  }

  /** Storing a timeline under its own id keeps the store well keyed. */
  lemma PutKeeps(d: Store, t: Timeline)
    requires WellKeyed(d)
    ensures WellKeyed(Put(d, t.id, t))
  {
    var r := Put(d, t.id, t);
    forall i | 0 <= i < |r| ensures r[i].1.id == r[i].0 {
      GetEntry(r, i);
      if r[i].0 == t.id {
        assert Get(r, t.id) == Some(t);
      } else {
        var k := r[i].0;
        assert Keys(r)[i] == k;
        assert k in Keys(d);
        var j :| 0 <= j < |d| && d[j].0 == k;
        GetEntry(d, j);
      }
    }
  }

  // ---------------------------------------------------------------------
  // Timestamps

  /** `int(ts.replace("第", "").replace(unit, ""))`. */
  function Ordinal(ts: string, unit: string): (r: Result<int>)
    requires |unit| > 0
    ensures r.Raise? ==> r.exc == ValueError
  {
    match Text.ParseInt(Text.Replace(Text.Replace(ts, "第", ""), unit, ""))
    case Some(n) => Ok(n)
    case None => Raise(ValueError)
  }

  /** `_parse_timestamp`: the sort key of a timestamp. */
  function ParseTimestamp(ts: string): (r: Result<int>)
    ensures r.Raise? ==> r.exc == ValueError
    ensures r.Raise? ==> Text.Contains(ts, "年前") || '月' in ts || '章' in ts
    ensures !Text.Contains(ts, "年前") && '月' !in ts && '章' !in ts ==> r == Ok(0)
  {
    if Text.Contains(ts, "年前") then
      match Text.ParseInt(Text.Replace(ts, "年前", ""))
      case Some(n) => Ok(-n)
      case None => Raise(ValueError)
    else if '月' in ts then Ordinal(ts, "个月")
    else if '章' in ts then
      match Ordinal(ts, "章")
      case Ok(n) => Ok(n * 30)
      case Raise(e) => Raise(e)
    else Ok(0)
  }

  /** Dropping the marker from "N年前" leaves the digits. */
  lemma DropYearsAgo(d: string)
    requires forall i :: 0 <= i < |d| ==> Text.IsAsciiDigit(d[i])
    ensures Text.Contains(d + "年前", "年前")
    ensures Text.Replace(d + "年前", "年前", "") == d
  {
    Text.ContainsEnd(d, "年前");
    Text.ReplaceAfterPlain(d, "年前", "年前", "");
    Text.ReplaceWhole("年前", "");
    assert d + "" == d;
  }

  /** A timestamp with the "年前" marker whose remainder parses as `v`
      sorts at -v. */
  lemma YearsAgoBranch(ts: string, v: int)
    requires Text.Contains(ts, "年前")
    requires Text.ParseInt(Text.Replace(ts, "年前", "")) == Some(v)
    ensures ParseTimestamp(ts) == Ok(-v)
  {
  }

  /** "N年前" (N years ago) sorts at -N. */
  lemma YearsAgo(n: nat)
    ensures ParseTimestamp(Text.NatToStr(n) + "年前") == Ok(-(n as int))
  {
    var d := Text.NatToStr(n);
    Text.ParseNatStr(n);
    DropYearsAgo(d);
    YearsAgoBranch(d + "年前", n);
  }

  /** A timestamp spelled "N年前" sorts at -N. */
  lemma YearsAgoOf(n: nat, ts: string)
    requires ts == Text.NatToStr(n) + "年前"
    ensures ParseTimestamp(ts) == Ok(-(n as int))
  {
    YearsAgo(n);
  }

  /** "第" + N + unit reads back as N. */
  lemma OrdinalOf(n: nat, unit: string)
    requires |unit| > 0 && !Text.IsAsciiDigit(unit[0]) && '第' !in unit
    ensures Ordinal("第" + Text.NatToStr(n) + unit, unit) == Ok(n)
  {
    var d := Text.NatToStr(n);
    var s := "第" + d + unit;
    var tail := d + unit;
    assert s[..1] == "第" && s[1..] == tail;
    assert '第' !in tail;
    Text.ContainsFirstChar(tail, "第");
    Text.ReplaceAbsent(tail, "第", "");
    assert Text.Replace(s, "第", "") == tail;
    Text.ReplaceAfterPlain(d, unit, unit, "");
    Text.ReplaceWhole(unit, "");
    assert d + "" == d;
    Text.ParseNatStr(n);
  }

  /** "第N个月" (month N) sorts at N. */
  lemma MonthN(n: nat, s: string)
    requires s == "第" + Text.NatToStr(n) + "个月"
    ensures ParseTimestamp(s) == Ok(n)
  {
    var d := Text.NatToStr(n);
    forall i | 0 <= i < |s| ensures s[i] != '年' {
      if 1 <= i <= |d| { assert s[i] == d[i - 1]; }
    }
    Text.ContainsFirstChar(s, "年前");
    assert s[|s| - 1] == '月';
    OrdinalOf(n, "个月");
  }

  /** "第N章" (chapter N) sorts at 30N, a month of days per chapter. */
  lemma ChapterN(n: nat, s: string)
    requires s == "第" + Text.NatToStr(n) + "章"
    ensures ParseTimestamp(s) == Ok(30 * n)
  {
    var d := Text.NatToStr(n);
    forall i | 0 <= i < |s| ensures s[i] != '年' && s[i] != '月' {
      if 1 <= i <= |d| { assert s[i] == d[i - 1]; }
    }
    Text.ContainsFirstChar(s, "年前");
    assert '月' !in s;
    assert s[|s| - 1] == '章';
    OrdinalOf(n, "章");
    assert ParseTimestamp(s) == Ok(n * 30);
  }

  /** The key `list.sort` uses; only consulted once every key parses. */
  function SortKey(e: Event): int {
    match ParseTimestamp(e.timestamp)
    case Ok(v) => v
    case Raise(_) => 0
  }

  /** Every event's timestamp parses, so sorting does not raise. */
  predicate AllParse(evs: seq<Event>) {
    forall i :: 0 <= i < |evs| ==> ParseTimestamp(evs[i].timestamp).Ok?
  }

  // ---------------------------------------------------------------------
  // Clashes

  /** Same timestamp text and a character in common. */
  predicate Clash(a: Event, b: Event) {
    a.timestamp == b.timestamp && exists c :: c in a.characters && c in b.characters
  }

  /** `any(c in b for c in a)`. */
  function SharesCharacter(a: seq<string>, b: seq<string>): (r: bool)
    ensures r <==> exists c :: c in a && c in b
  {
    if |a| == 0 then false else a[0] in b || SharesCharacter(a[1..], b)
  }

  /** `_check_event_conflicts`: the new event clashes with an existing one. */
  function Conflicts(e: Event, existing: seq<Event>): (r: bool)
    ensures r <==> exists i :: 0 <= i < |existing| && Clash(e, existing[i])
  {
    if |existing| == 0 then false
    else
      var hit := existing[0].timestamp == e.timestamp && SharesCharacter(e.characters, existing[0].characters);
      assert forall i :: 1 <= i < |existing| ==> existing[i] == existing[1..][i - 1];
      hit || Conflicts(e, existing[1..])
  }

  /** A clash is symmetric, so checking a pair in either order agrees. */
  lemma ConflictSymmetric(a: Event, b: Event)
    ensures Conflicts(a, [b]) == Conflicts(b, [a])
  {
    assert Conflicts(a, [b]) == Clash(a, b);
    assert Conflicts(b, [a]) == Clash(b, a);
  }

  datatype Conflict =
    | Internal(timeline: string, event1: string, event2: string, description: string)
    | Cross(timeline1: string, timeline2: string, event1: string, event2: string, description: string)

  /** The report for a clashing pair inside one timeline. */
  function InternalReport(tid: string, a: Event, b: Event): Conflict {
    Internal(tid, a.id, b.id, a.name + "与" + b.name + "时间冲突")
  }

  function InternalCheck(tid: string): (Event, Event) -> Option<Conflict> {
    (a, b) => if Conflicts(a, [b]) then Some(InternalReport(tid, a, b)) else None
  }

  /** `_find_internal_conflicts`: every clashing pair i < j, in order. */
  function InternalConflicts(t: Timeline): seq<Conflict> {
    Seqs.AllPairs(t.events, InternalCheck(t.id))
  }

  lemma InternalConflictsIff(t: Timeline, c: Conflict)
    ensures c in InternalConflicts(t) <==>
      exists i, j :: 0 <= i < j < |t.events| && Clash(t.events[i], t.events[j]) &&
        c == InternalReport(t.id, t.events[i], t.events[j])
  {
    var f := InternalCheck(t.id);
    Seqs.AllPairsMembers(t.events, f, c);
    forall i, j | 0 <= i < j < |t.events|
      ensures f(t.events[i], t.events[j]) == Some(c) <==>
        Clash(t.events[i], t.events[j]) && c == InternalReport(t.id, t.events[i], t.events[j])
    {
      assert Conflicts(t.events[i], [t.events[j]]) == Clash(t.events[i], t.events[j]);
    }
  }

  /** The clashing index pairs i < j of a list of events. */
  ghost function ClashingPairs(events: seq<Event>): set<(nat, nat)> {
    set i: nat, j: nat | i < j < |events| && Clash(events[i], events[j]) :: (i, j)
  }

  /** The clashing pairs of a timeline in the order the scan meets them. */
  function ClashOrder(t: Timeline): seq<(nat, nat)> {
    Seqs.HitPairs(|t.events|, 0, 1, Seqs.At(t.events, InternalCheck(t.id)))
  }

  /** Each clashing pair i < j is reported exactly once, in row order: the
      k-th report is the one for the k-th clashing pair, no pair comes
      twice, and there are as many reports as clashing pairs. */
  lemma InternalConflictsOnce(t: Timeline)
    ensures var ps := ClashOrder(t);
            && |InternalConflicts(t)| == |ps|
            && (forall k :: 0 <= k < |ps| ==>
                  && ps[k].0 < ps[k].1 < |t.events|
                  && InternalConflicts(t)[k] == InternalReport(t.id, t.events[ps[k].0], t.events[ps[k].1]))
            && (set p | p in ps) == ClashingPairs(t.events)
            && Seqs.Distinct(ps)
    ensures |InternalConflicts(t)| == |ClashingPairs(t.events)|
  {
    var at := Seqs.At(t.events, InternalCheck(t.id));
    var ps := ClashOrder(t);
    Seqs.AllPairsReports(t.events, InternalCheck(t.id));
    Seqs.HitPairsSound(|t.events|, 0, 1, at);
    Seqs.HitPairsEnumerate(|t.events|, at);
    forall p: nat, q: nat | p < q < |t.events|
      ensures at(p, q).Some? <==> Clash(t.events[p], t.events[q])
    {
      assert Conflicts(t.events[p], [t.events[q]]) == Clash(t.events[p], t.events[q]);
    }
    assert Seqs.HitSet(|t.events|, at) == ClashingPairs(t.events);
  }

  /** The report for a clash between two timelines. */
  function CrossReport(t1: string, t2: string, a: Event, b: Event): Conflict {
    Cross(t1, t2, a.id, b.id, "不同时间线中的事件冲突")
  }

  function CrossCheck(t1: string, t2: string, a: Event): Event -> Option<Conflict> {
    b => if Conflicts(a, [b]) then Some(CrossReport(t1, t2, a, b)) else None
  }

  /** Every event of `t1` against every event of `t2`, in order. */
  function CrossBetween(t1: Timeline, t2: Timeline): seq<Conflict> {
    Seqs.Flatten(seq(|t1.events|, a requires 0 <= a < |t1.events| => Seqs.Choose(t2.events, CrossCheck(t1.id, t2.id, t1.events[a]))))
  }

  /** `_find_cross_timeline_conflicts` over the timelines in store order. */
  function CrossConflicts(ts: seq<Timeline>): seq<Conflict> {
    Seqs.PairsFlat(ts, CrossBetween)
  }

  lemma CrossBetweenIff(t1: Timeline, t2: Timeline, c: Conflict)
    ensures c in CrossBetween(t1, t2) <==>
      exists a, b :: 0 <= a < |t1.events| && 0 <= b < |t2.events| && Clash(t1.events[a], t2.events[b]) &&
        c == CrossReport(t1.id, t2.id, t1.events[a], t2.events[b])
  {
    var rows := seq(|t1.events|, a requires 0 <= a < |t1.events| => Seqs.Choose(t2.events, CrossCheck(t1.id, t2.id, t1.events[a])));
    forall a | 0 <= a < |t1.events|
      ensures c in rows[a] <==> exists b :: (0 <= b < |t2.events| && Clash(t1.events[a], t2.events[b]) &&
        c == CrossReport(t1.id, t2.id, t1.events[a], t2.events[b]))
    {
      var f := CrossCheck(t1.id, t2.id, t1.events[a]);
      Seqs.ChooseMembers(t2.events, f, c);
      forall b | 0 <= b < |t2.events| ensures Conflicts(t1.events[a], [t2.events[b]]) == Clash(t1.events[a], t2.events[b]) {
      }
    }
  }

  lemma CrossConflictsIff(ts: seq<Timeline>, c: Conflict)
    ensures c in CrossConflicts(ts) <==>
      exists i, j :: 0 <= i < j < |ts| && c in CrossBetween(ts[i], ts[j])
  {
    Seqs.PairsFlatMembers(ts, CrossBetween, c);
  }

  /** Cross reports are all of the cross kind. */
  lemma CrossConflictsKind(ts: seq<Timeline>, c: Conflict)
    requires c in CrossConflicts(ts)
    ensures c.Cross?
  {
    CrossConflictsIff(ts, c);
    var i, j :| 0 <= i < j < |ts| && c in CrossBetween(ts[i], ts[j]);
    CrossBetweenIff(ts[i], ts[j], c);
  }

  /** The timelines `detect_timeline_conflicts` scans inside: the named one
      (or none when it is missing) for a non-empty id, all otherwise. */
  function Checked(d: Store, tid: Option<string>): seq<Timeline> {
    if tid.Some? && tid.value != "" then
      match Get(d, tid.value)
      case Some(t) => [t]
      case None => []
    else Values(d)
  }

  /** `detect_timeline_conflicts`: clashes inside the checked timelines,
      then, whenever the store holds two or more timelines, clashes across
      all of them, whatever id was asked for. */
  function DetectConflicts(d: Store, tid: Option<string>): seq<Conflict> {
    var checked := Checked(d, tid);
    Seqs.Flatten(seq(|checked|, i requires 0 <= i < |checked| => InternalConflicts(checked[i])))
      + (if |d| > 1 then CrossConflicts(Values(d)) else [])
  }

  /** An in-timeline report is produced exactly for the checked timelines'
      clashing pairs; a cross report exactly for clashes across two stored
      timelines, and only when there are two or more. */
  lemma DetectConflictsIff(d: Store, tid: Option<string>, c: Conflict)
    ensures c.Internal? ==>
      (c in DetectConflicts(d, tid) <==> exists t :: t in Checked(d, tid) && c in InternalConflicts(t))
    ensures c.Cross? ==>
      (c in DetectConflicts(d, tid) <==> |d| > 1 && c in CrossConflicts(Values(d)))
  {
    var checked := Checked(d, tid);
    var rows := seq(|checked|, i requires 0 <= i < |checked| => InternalConflicts(checked[i]));
    forall t | t in checked ensures InternalConflicts(t) in rows {
      var i :| 0 <= i < |checked| && checked[i] == t;
      assert rows[i] == InternalConflicts(t);
    }
    forall i | 0 <= i < |rows| ensures forall x: Conflict :: x in rows[i] ==> x.Internal? {
      forall x: Conflict | x in rows[i] ensures x.Internal? {
        InternalConflictsIff(checked[i], x);
      }
    }
    if c.Cross? {
      assert c !in Seqs.Flatten(rows);
    } else if c in DetectConflicts(d, tid) && |d| > 1 && c in CrossConflicts(Values(d)) {
      CrossConflictsKind(Values(d), c);
    }
  }

  /** Asking about one timeline reports in-timeline clashes of that
      timeline only, and none at all when the id is unknown. */
  lemma DetectNamedOnly(d: Store, id: string, c: Conflict)
    requires WellKeyed(d) && id != ""
    requires c in DetectConflicts(d, Some(id)) && c.Internal?
    ensures id in Keys(d) && c.timeline == id
  {
    DetectConflictsIff(d, Some(id), c);
    var t :| t in Checked(d, Some(id)) && c in InternalConflicts(t);
    InternalConflictsIff(t, c);
    var f := Find(d, id);
    GetEntry(d, f.value);
  }

  /** The same clashing event stored in two timelines is reported against
      itself as a cross-timeline clash. */
  lemma SharedEventReported(d: Store, i: nat, j: nat, a: nat, b: nat)
    requires i < |d| && j < |d| && i != j
    requires a < |d[i].1.events| && b < |d[j].1.events|
    requires d[i].1.events[a] == d[j].1.events[b] && |d[i].1.events[a].characters| > 0
    ensures exists c :: (c in DetectConflicts(d, None) && c.Cross? &&
      c.event1 == c.event2 == d[i].1.events[a].id)
  {
    var e := d[i].1.events[a];
    var vs := Values(d);
    var lo, hi, x, y := if i < j then i else j, if i < j then j else i, if i < j then a else b, if i < j then b else a;
    var c := CrossReport(vs[lo].id, vs[hi].id, vs[lo].events[x], vs[hi].events[y]);
    assert vs[lo].events[x] == e && vs[hi].events[y] == e;
    assert e.characters[0] in e.characters;
    assert Clash(e, e);
    CrossBetweenIff(vs[lo], vs[hi], c);
    CrossConflictsIff(vs, c);
    DetectConflictsIff(d, None, c);
  }

  // ---------------------------------------------------------------------
  // End time

  /** A string whose lower-cased form contains a word-like `sub` has a
      first word. */
  lemma HasWord(s: string, sub: string)
    requires |sub| > 0 && !Text.IsSpace(sub[0]) && Text.Contains(Text.Lower(s), sub)
    ensures |Text.Words(s)| > 0
  {
    var low := Text.Lower(s);
    Text.ContainsAt(low, sub);
    var i :| Text.OccursAt(low, sub, i);
    assert low[i] == low[i..i + |sub|][0] == sub[0];
    assert !Text.IsSpace(s[i]);
    var t := Text.LStrip(s);
    assert |t| > 0;
  }

  /** `_calculate_end_time`: "N years" and "N months" (case-insensitive, N
      the first word) give "<start>后N年" and "<start>后N月"; any other
      span gives "<start>之后". */
  function EndTime(start: string, span: string): (r: Result<string>)
    ensures r.Raise? ==> r.exc == ValueError
    ensures r.Raise? ==> Text.Contains(Text.Lower(span), "year") || Text.Contains(Text.Lower(span), "month")
    ensures !Text.Contains(Text.Lower(span), "year") && !Text.Contains(Text.Lower(span), "month") ==>
              r == Ok(start + "之后")
    ensures Text.Contains(Text.Lower(span), "year") ==>
              && |Text.Words(span)| > 0
              && (r.Ok? <==> Text.ParseInt(Text.Words(span)[0]).Some?)
              && (r.Ok? ==> r.value == start + "后" + Text.IntToStr(Text.ParseInt(Text.Words(span)[0]).value) + "年")
    ensures !Text.Contains(Text.Lower(span), "year") && Text.Contains(Text.Lower(span), "month") ==>
              && |Text.Words(span)| > 0
              && (r.Ok? <==> Text.ParseInt(Text.Words(span)[0]).Some?)
              && (r.Ok? ==> r.value == start + "后" + Text.IntToStr(Text.ParseInt(Text.Words(span)[0]).value) + "月")
  {
    var low := Text.Lower(span);
    if Text.Contains(low, "year") then
      HasWord(span, "year");
      match Text.ParseInt(Text.Words(span)[0])
      case Some(n) => Ok(start + "后" + Text.IntToStr(n) + "年")
      case None => Raise(ValueError)
    else if Text.Contains(low, "month") then
      HasWord(span, "month");
      match Text.ParseInt(Text.Words(span)[0])
      case Some(n) => Ok(start + "后" + Text.IntToStr(n) + "月")
      case None => Raise(ValueError)
    else Ok(start + "之后")
  }

  /** A number, a space and a lower-case word are their own lower case. */
  lemma NumberThenWordLower(d: string, unit: string)
    requires forall i :: 0 <= i < |d| ==> Text.IsAsciiDigit(d[i])
    requires forall i :: 0 <= i < |unit| ==> 'a' <= unit[i] <= 'z'
    ensures Text.Lower(d + " " + unit) == d + " " + unit
  {
    var s := d + " " + unit;
    forall i | 0 <= i < |s| ensures !('A' <= s[i] <= 'Z') {
      if i < |d| { assert s[i] == d[i]; } else if i > |d| { assert s[i] == unit[i - |d| - 1]; }
    }
    Text.LowerNoUpper(s);
  }

  /** The digits before the first space are the first word. */
  lemma FirstWordDigits(d: string, rest: string)
    requires |d| > 0 && forall i :: 0 <= i < |d| ==> Text.IsAsciiDigit(d[i])
    requires |rest| > 0 && rest[0] == ' '
    ensures Text.Words(d + rest) == [d] + Text.Words(rest)
  {
    assert Text.IsWord(d) by {
      forall i | 0 <= i < |d| ensures !Text.IsSpace(d[i]) { assert Text.IsAsciiDigit(d[i]); }
    }
    Text.WordsWordCons(d, rest);
  }

  /** "N years" ends N years after the start. */
  lemma EndYears(start: string, n: nat, s: string)
    requires s == Text.NatToStr(n) + " years"
    ensures EndTime(start, s) == Ok(start + "后" + Text.NatToStr(n) + "年")
  {
    var d := Text.NatToStr(n);
    assert d + " " + "years" == s;
    NumberThenWordLower(d, "years");
    Text.ContainsAt(s, "year");
    assert s[|d| + 1..|d| + 5] == "year";
    assert Text.OccursAt(s, "year", |d| + 1);
    FirstWordDigits(d, " years");
    assert Text.Words(s)[0] == d;
    Text.ParseNatStr(n);
    assert Text.IntToStr(n) == d;
  }

  /** "N months" ends N months after the start. */
  lemma EndMonths(start: string, n: nat, s: string)
    requires s == Text.NatToStr(n) + " months"
    ensures EndTime(start, s) == Ok(start + "后" + Text.NatToStr(n) + "月")
  {
    var d := Text.NatToStr(n);
    assert d + " " + "months" == s;
    NumberThenWordLower(d, "months");
    forall i | 0 <= i < |s| ensures s[i] != 'y' {
      if i < |d| { assert s[i] == d[i]; }
    }
    Text.ContainsFirstChar(s, "year");
    Text.ContainsAt(s, "month");
    assert s[|d| + 1..|d| + 6] == "month";
    assert Text.OccursAt(s, "month", |d| + 1);
    FirstWordDigits(d, " months");
    assert Text.Words(s)[0] == d;
    Text.ParseNatStr(n);
    assert Text.IntToStr(n) == d;
  }

  // ---------------------------------------------------------------------
  // The main timeline

  /** A plot point of the story outline; absent keys are `None`. */
  datatype PlotSpec = PlotSpec(
    name: Option<string>,
    description: Option<string>,
    chapterRange: Option<string>,
    characters: Option<seq<string>>,
    importance: Option<int>,
    outcomes: Option<seq<string>>)

  /** `_map_plot_to_chapter`: the number before the first "-" of the
      chapter range, the whole range when it is all digits, `None`
      otherwise. */
  function MapPlotToChapter(range: string): (r: Result<Option<int>>)
    ensures r.Raise? ==> r.exc == ValueError && '-' in range
    ensures r == Ok(None) <==> '-' !in range && !Text.IsDigitStr(range)
  {
    if '-' in range then
      match Text.ParseInt(Text.Split(range, '-')[0])
      case Some(n) => Ok(Some(n))
      case None => Raise(ValueError)
    else if Text.IsDigitStr(range) then Ok(Some(Text.DigitsValue(range)))
    else Ok(None)
  }

  /** "a-…" maps to chapter a, whatever follows the dash. */
  lemma RangeMapsToStart(a: nat, rest: string)
    ensures MapPlotToChapter(Text.NatToStr(a) + "-" + rest) == Ok(Some(a))
  {
    var d := Text.NatToStr(a);
    var s := d + "-" + rest;
    assert s[|d|] == '-';
    assert '-' !in d by {
      forall i | 0 <= i < |d| ensures d[i] != '-' { assert Text.IsAsciiDigit(d[i]); }
    }
    Text.SplitHead(d, rest, '-');
    Text.ParseNatStr(a);
  }

  /** A bare chapter number maps to itself. */
  lemma NumberMapsToItself(a: nat)
    ensures MapPlotToChapter(Text.NatToStr(a)) == Ok(Some(a))
  {
    var d := Text.NatToStr(a);
    assert '-' !in d by {
      forall i | 0 <= i < |d| ensures d[i] != '-' { assert Text.IsAsciiDigit(d[i]); }
    }
    Text.DigitsValueNatToStr(a);
  }

  /** A range that starts with a dash ("-3", "-2-5") raises: the piece
      before the dash is empty. */
  lemma LeadingDashRaises(rest: string)
    ensures MapPlotToChapter("-" + rest) == Raise(ValueError)
  {
    Text.SplitHead("", rest, '-');
    assert "" + "-" + rest == "-" + rest;
    assert Text.Strip("") == "";
  }

  /** The chapter ranges the story planner writes map to their first
      chapter whenever that is not negative. */
  lemma PlannerRangeMapsToStart(a: nat, b: int)
    ensures MapPlotToChapter(StoryPlanner.RangeStr(a, b)) == Ok(Some(a))
  {
    RangeMapsToStart(a, Text.IntToStr(b));
  }

  /** The event `_extract_events_from_outline` makes of plot point `i`. */
  function PlotEvent(i: nat, p: PlotSpec): (r: Result<Event>)
    ensures r.Raise? <==> MapPlotToChapter(p.chapterRange.GetOr("")).Raise?
    ensures r.Raise? ==> r.exc == ValueError
  {
    match MapPlotToChapter(p.chapterRange.GetOr(""))
    case Raise(e) => Raise(e)
    case Ok(ch) =>
      Ok(Event("plot_" + Text.IntToStr(i), p.name.GetOr("情节点" + Text.IntToStr(i)), p.description.GetOr(""),
        "第" + Text.IntToStr(i + 1) + "个月", ch, p.characters.GetOr([]), "未指定", "plot",
        p.importance.GetOr(5), p.outcomes.GetOr([]), []))
  }

  /** `_extract_events_from_outline`: one event per plot point, in order. */
  function ExtractEvents(points: seq<PlotSpec>): (r: Result<seq<Event>>)
    ensures r.Raise? <==> exists i :: 0 <= i < |points| && MapPlotToChapter(points[i].chapterRange.GetOr("")).Raise?
    ensures r.Raise? ==> r.exc == ValueError
    ensures r.Ok? ==> |r.value| == |points|
    ensures r.Ok? ==> forall i :: 0 <= i < |points| ==> Ok(r.value[i]) == PlotEvent(i, points[i])
  {
    var rs := seq(|points|, i requires 0 <= i < |points| => PlotEvent(i, points[i]));
    assert forall i :: 0 <= i < |points| ==> rs[i] == PlotEvent(i, points[i]);
    Collect(rs)
  }

  /** Plot point `i` is stamped month i + 1. */
  lemma PlotEventMonth(i: nat, p: PlotSpec)
    requires PlotEvent(i, p).Ok?
    ensures ParseTimestamp(PlotEvent(i, p).value.timestamp) == Ok(i + 1)
  {
    MonthN(i + 1, PlotEvent(i, p).value.timestamp);
  }

  /** Plot point `i` becomes month i + 1, so the extracted events are
      already in timestamp order and carry distinct ids. */
  lemma ExtractedEventsOrdered(points: seq<PlotSpec>)
    requires ExtractEvents(points).Ok?
    ensures var evs := ExtractEvents(points).value;
      (forall i :: 0 <= i < |evs| ==> ParseTimestamp(evs[i].timestamp) == Ok(i + 1)) &&
      Seqs.SortedBy(evs, SortKey) && AllParse(evs)
  {
    var evs := ExtractEvents(points).value;
    forall i | 0 <= i < |evs| ensures ParseTimestamp(evs[i].timestamp) == Ok(i + 1) {
      assert Ok(evs[i]) == PlotEvent(i, points[i]);
      PlotEventMonth(i, points[i]);
    }
    assert forall i :: 0 <= i < |evs| ==> SortKey(evs[i]) == i + 1;
  }

  /** Distinct plot indices give distinct event ids. */
  lemma ExtractedIdsDistinct(points: seq<PlotSpec>, i: nat, j: nat)
    requires ExtractEvents(points).Ok? && i < j < |points|
    ensures ExtractEvents(points).value[i].id != ExtractEvents(points).value[j].id
  {
    var evs := ExtractEvents(points).value;
    assert Ok(evs[i]) == PlotEvent(i, points[i]) && Ok(evs[j]) == PlotEvent(j, points[j]);
    var a, b := evs[i].id, evs[j].id;
    assert a[5..] == Text.IntToStr(i) && b[5..] == Text.IntToStr(j);
    Text.ParseIntToStr(i);
    Text.ParseIntToStr(j);
  }

  /** `create_main_timeline`: extracts the events, then the end time; the
      timeline is stored under "main_timeline" and becomes the global one. */
  function CreateMainTimeline(d: Store, points: seq<PlotSpec>, span: string, start: string): (r: Result<(Timeline, Store)>)
    requires WellKeyed(d)
    ensures r.Raise? ==> r.exc == ValueError
    ensures r.Raise? <==> ExtractEvents(points).Raise? || EndTime(start, span).Raise?
    ensures r.Ok? ==> WellKeyed(r.value.1) && Global(r.value.1) == Some(r.value.0)
    ensures r.Ok? ==> r.value.0.events == ExtractEvents(points).value && r.value.0.startTime == start
    ensures r.Ok? ==> forall k :: k != MainId ==> Get(r.value.1, k) == Get(d, k)
  {
    match ExtractEvents(points)
    case Raise(e) => Raise(e)
    case Ok(evs) =>
      match EndTime(start, span)
      case Raise(e) => Raise(e)
      case Ok(end) =>
        var t := Timeline(MainId, "主线时间线", "小说主要故事线的时间线", "months", evs, start, end);
        PutKeeps(d, t);
        Ok((t, Put(d, MainId, t)))
  }

  // ---------------------------------------------------------------------
  // Character and world timelines

  /** The character dictionary's `name` and `birthplace`. */
  datatype CharacterSpec = CharacterSpec(name: Option<string>, birthplace: Option<string>)

  /** The one event each character timeline adds of its own. */
  function Background(name: string, place: string): Event {
    Event(name + "_background", name + "的背景事件", "角色的重要背景经历", "故事开始前", None, [name],
      place, "character", 6, ["塑造角色性格"], [])
  }

  /** The background event's timestamp carries no marker and sorts at 0. */
  lemma BackgroundSortsFirst(name: string, place: string)
    ensures ParseTimestamp(Background(name, place).timestamp) == Ok(0)
  {
    var s := Background(name, place).timestamp;
    assert s == ['故', '事', '开', '始', '前'];
    assert '年' !in s && '月' !in s && '章' !in s;
    Text.ContainsFirstChar(s, "年前");
  }

  function Involves(name: string): Event -> bool {
    (e: Event) => name in e.characters
  }

  /** `_generate_character_events`: the main events that involve the name
      (the empty name when absent), then the background event. */
  function CharacterEvents(c: CharacterSpec, main: Timeline): (r: seq<Event>)
    ensures |r| > 0 && r[|r| - 1] == Background(c.name.GetOr(""), c.birthplace.GetOr("未知"))
    ensures forall e :: e in r[..|r| - 1] <==> e in main.events && c.name.GetOr("") in e.characters
  {
    var name := c.name.GetOr("");
    var r := Seqs.Filter(main.events, Involves(name)) + [Background(name, c.birthplace.GetOr("未知"))];
    assert r[..|r| - 1] == Seqs.Filter(main.events, Involves(name));
    r
  }

  /** `create_character_timeline`: stored under "char_<name>_timeline",
      where the name defaults to "unknown" for the id but to "" for the
      event filter. */
  function CreateCharacterTimeline(d: Store, c: CharacterSpec, main: Timeline): (r: (Timeline, Store))
    requires WellKeyed(d)
    ensures r.0.id == "char_" + c.name.GetOr("unknown") + "_timeline"
    ensures r.0.events == CharacterEvents(c, main)
    ensures r.0.startTime == main.startTime && r.0.endTime == main.endTime
    ensures WellKeyed(r.1) && Get(r.1, r.0.id) == Some(r.0)
    ensures forall k :: k != r.0.id ==> Get(r.1, k) == Get(d, k)
  {
    var t := Timeline("char_" + c.name.GetOr("unknown") + "_timeline", c.name.GetOr("角色") + "的时间线",
      c.name.GetOr("角色") + "的个人发展时间线", "days", CharacterEvents(c, main), main.startTime, main.endTime);
    PutKeeps(d, t);
    (t, Put(d, t.id, t))
  }

  /** Every main event the character takes part in is copied into the
      character timeline, so once both exist each such event is reported
      as clashing with its own copy across the two timelines. */
  lemma CharacterTimelineEchoesMain(d: Store, c: CharacterSpec, k: nat)
    requires WellKeyed(d) && Global(d).Some?
    requires k < |Global(d).value.events|
    requires c.name.GetOr("") in Global(d).value.events[k].characters
    ensures exists x :: (x in DetectConflicts(CreateCharacterTimeline(d, c, Global(d).value).1, None) &&
      x.Cross? && x.event1 == x.event2 == Global(d).value.events[k].id)
  {
    var main := Global(d).value;
    var e := main.events[k];
    var res := CreateCharacterTimeline(d, c, main);
    assert res.0.id[0] == 'c' && MainId[0] == 'm';
    var evs := res.0.events;
    assert e in evs[..|evs| - 1];
    EchoInStore(res.1, main, res.0, e);
  }

  /** An event with a character, present in two stored timelines, is
      reported against itself. */
  lemma EchoInStore(r: Store, t1: Timeline, t2: Timeline, e: Event)
    requires t1.id != t2.id && Get(r, t1.id) == Some(t1) && Get(r, t2.id) == Some(t2)
    requires e in t1.events && e in t2.events && e.characters != []
    ensures exists x :: (x in DetectConflicts(r, None) && x.Cross? && x.event1 == x.event2 == e.id)
  {
    var i :| 0 <= i < |r| && r[i] == (t1.id, t1);
    var j :| 0 <= j < |r| && r[j] == (t2.id, t2);
    var a :| 0 <= a < |t1.events| && t1.events[a] == e;
    var b :| 0 <= b < |t2.events| && t2.events[b] == e;
    SharedEventReported(r, i, j, a, b);
  }

  /** The historical periods of `_generate_world_history`, oldest first. */
  const Periods: seq<(string, string)> := [
    ("远古时代", "世界创造"), ("上古时期", "神魔大战"), ("中古时期", "王朝建立"),
    ("近古时期", "门派兴起"), ("当代", "故事背景")]

  function HistoryEvent(i: nat): Event
    requires i < |Periods|
  {
    Event("history_" + Text.IntToStr(i), Periods[i].0, Periods[i].1, Text.IntToStr(|Periods| - i) + "000年前",
      None, [], "整个世界", "world", 8, ["影响" + Periods[i].0 + "的发展"], [])
  }

  /** `_generate_world_history`: one event per period. */
  function WorldHistory(): (r: seq<Event>)
    ensures |r| == |Periods|
    ensures forall i :: 0 <= i < |Periods| ==> r[i] == HistoryEvent(i)
  {
    seq(|Periods|, i requires 0 <= i < |Periods| => HistoryEvent(i))
  }

  /** "k000年前" is k thousand years ago. */
  lemma ThousandsAgo(k: nat, ts: string)
    requires k >= 1 && ts == Text.IntToStr(k) + "000年前"
    ensures ParseTimestamp(ts) == Ok(-1000 * k)
  {
    Text.NatToStrThousand(k);
    var n: nat := 1000 * k;
    YearsAgoOf(n, ts);
    assert -(n as int) == -1000 * k;
  }

  /** Period i lies (5 - i) thousand years back, so the world history is
      in strictly increasing timestamp order. */
  lemma WorldHistoryOrdered()
    ensures forall i :: 0 <= i < |Periods| ==> ParseTimestamp(WorldHistory()[i].timestamp) == Ok(-1000 * (|Periods| - i))
    ensures AllParse(WorldHistory())
    ensures forall i, j :: 0 <= i < j < |Periods| ==> SortKey(WorldHistory()[i]) < SortKey(WorldHistory()[j])
  {
    forall i | 0 <= i < |Periods| ensures ParseTimestamp(WorldHistory()[i].timestamp) == Ok(-1000 * (|Periods| - i)) {
      ThousandsAgo(|Periods| - i, WorldHistory()[i].timestamp);
    }
  }

  /** `create_world_timeline`: the world setting is not consulted; the
      depth only names the start. */
  function CreateWorldTimeline(d: Store, depth: string): (r: (Timeline, Store))
    requires WellKeyed(d)
    ensures r.0.id == "world_timeline" && r.0.events == WorldHistory()
    ensures r.0.startTime == depth + "前" && r.0.endTime == "当前"
    ensures WellKeyed(r.1) && Get(r.1, r.0.id) == Some(r.0)
    ensures forall k :: k != r.0.id ==> Get(r.1, k) == Get(d, k)
  {
    var t := Timeline("world_timeline", "世界历史时间线", "世界的历史背景时间线", "years", WorldHistory(), depth + "前", "当前");
    PutKeeps(d, t);
    (t, Put(d, t.id, t))
  }

  // ---------------------------------------------------------------------
  // Adding and reading events

  /** `add_event`: the flag it returns (or the exception the sort raises)
      and the store afterwards.  The event is appended before the sort, so
      when a timestamp does not parse the timeline keeps the unsorted
      list with the new event at the end. */
  function AddEvent(d: Store, tid: string, e: Event): (r: (Result<bool>, Store))
    requires WellKeyed(d)
    ensures WellKeyed(r.1) && Keys(r.1) == Keys(d)
    ensures forall k :: k != tid ==> Get(r.1, k) == Get(d, k)
    ensures Get(d, tid).None? ==> r == (Ok(false), d)
    ensures Get(d, tid).Some? && Conflicts(e, Get(d, tid).value.events) ==> r == (Ok(false), d)
    ensures r.0 == Ok(true) <==>
      Get(d, tid).Some? && !Conflicts(e, Get(d, tid).value.events) && AllParse(Get(d, tid).value.events + [e])
    ensures r.0 == Ok(true) ==>
      Get(r.1, tid).Some? && Seqs.SortedBy(Get(r.1, tid).value.events, SortKey) &&
      multiset(Get(r.1, tid).value.events) == multiset(Get(d, tid).value.events) + multiset{e}
    ensures r.0.Raise? ==>
      r.0.exc == ValueError &&
      Get(r.1, tid) == Some(Get(d, tid).value.(events := Get(d, tid).value.events + [e]))
  {
    match Get(d, tid)
    case None => (Ok(false), d)
    case Some(t) =>
      if Conflicts(e, t.events) then (Ok(false), d)
      else
        var evs := t.events + [e];
        assert (tid, t) in d;
        if AllParse(evs) then
          var sorted := Seqs.SortBy(evs, SortKey);
          Seqs.SortByMultiset(evs, SortKey);
          PutKeeps(d, t.(events := sorted));
          (Ok(true), Put(d, tid, t.(events := sorted)))
        else
          PutKeeps(d, t.(events := evs));
          (Raise(ValueError), Put(d, tid, t.(events := evs)))
  }

  /** Adding an event that involves someone a second time is refused and
      changes nothing: it clashes with its own first copy. */
  lemma AddTwiceRefused(d: Store, tid: string, e: Event)
    requires WellKeyed(d) && |e.characters| > 0
    requires AddEvent(d, tid, e).0 == Ok(true)
    ensures var d1 := AddEvent(d, tid, e).1; AddEvent(d1, tid, e) == (Ok(false), d1)
  {
    var d1 := AddEvent(d, tid, e).1;
    var evs := Get(d1, tid).value.events;
    assert e in multiset(evs);
    var i :| 0 <= i < |evs| && evs[i] == e;
    assert e.characters[0] in e.characters;
    assert Clash(e, evs[i]);
  }

  function InChapter(chapter: int): Event -> bool {
    (e: Event) => e.chapter == Some(chapter)
  }

  /** `get_events_in_chapter`. */
  function EventsInChapter(d: Store, chapter: int, tid: string): (r: seq<Event>)
    ensures Get(d, tid).None? ==> r == []
    ensures Get(d, tid).Some? ==> forall e :: e in r <==> e in Get(d, tid).value.events && e.chapter == Some(chapter)
  {
    match Get(d, tid)
    case None => []
    case Some(t) => Seqs.Filter(t.events, InChapter(chapter))
  }

  /** `get_events_by_character`. */
  function EventsByCharacter(d: Store, name: string, tid: string): (r: seq<Event>)
    ensures Get(d, tid).None? ==> r == []
    ensures Get(d, tid).Some? ==> forall e :: e in r <==> e in Get(d, tid).value.events && name in e.characters
  {
    match Get(d, tid)
    case None => []
    case Some(t) => Seqs.Filter(t.events, Involves(name))
  }

  // ---------------------------------------------------------------------
  // The tool

  /** The story outline's `plot_points`. */
  datatype TimelineOutline = TimelineOutline(plotPoints: Option<seq<PlotSpec>>)

  /** The tool's parameters; `None` is an absent key.  `event` is `None`
      also when the dictionary does not name every field of an event. */
  datatype TimelineParams = TimelineParams(
    action: Option<string>,
    storyOutline: Option<TimelineOutline>,
    timeSpan: Option<string>,
    startingPoint: Option<string>,
    character: Option<CharacterSpec>,
    timelineId: Option<string>,
    event: Option<Event>,
    chapterNumber: Option<int>,
    characterName: Option<string>)

  datatype TimelineReply =
    | TimelineReply(timeline: Timeline)
    | SuccessReply(success: bool)
    | EventsReply(events: seq<Event>)
    | ConflictsReply(conflicts: seq<Conflict>)
    | ErrorReply(error: string)

  /** The events `get_events` returns: by chapter for a non-zero chapter
      number, else by character for a non-empty name, else all of the
      timeline's events. */
  function GetEvents(d: Store, p: TimelineParams): (r: seq<Event>)
    ensures p.chapterNumber.Some? && p.chapterNumber.value != 0 ==>
      r == EventsInChapter(d, p.chapterNumber.value, p.timelineId.GetOr(MainId))
    ensures (p.chapterNumber.None? || p.chapterNumber.value == 0) && p.characterName.Some? && p.characterName.value != "" ==>
      r == EventsByCharacter(d, p.characterName.value, p.timelineId.GetOr(MainId))
    ensures (p.chapterNumber.None? || p.chapterNumber.value == 0) && (p.characterName.None? || p.characterName.value == "") ==>
      r == (match Get(d, p.timelineId.GetOr(MainId)) case Some(t) => t.events case None => [])
  {
    var tid := p.timelineId.GetOr(MainId);
    if p.chapterNumber.Some? && p.chapterNumber.value != 0 then EventsInChapter(d, p.chapterNumber.value, tid)
    else if p.characterName.Some? && p.characterName.value != "" then EventsByCharacter(d, p.characterName.value, tid)
    else match Get(d, tid) case Some(t) => t.events case None => []
  }

  function MainReply(d: Store, p: TimelineParams): (r: (Result<TimelineReply>, Store))
    requires WellKeyed(d)
    ensures WellKeyed(r.1)
  {
    var points := match p.storyOutline case Some(o) => o.plotPoints.GetOr([]) case None => [];
    match CreateMainTimeline(d, points, p.timeSpan.GetOr("2 years"), p.startingPoint.GetOr("春季"))
    case Raise(e) => (Raise(e), d)
    case Ok(res) => (Ok(TimelineReply(res.0)), res.1)
  }

  /** `TimelineManagerTool.execute` on the manager's store. */
  function Execute(d: Store, p: TimelineParams): (r: (Result<TimelineReply>, Store))
    requires WellKeyed(d)
    ensures WellKeyed(r.1)
    ensures p.action == Some("create_main") ==> r == MainReply(d, p)
    ensures p.action == Some("create_character") ==>
      if Global(d).None? then r == (Ok(ErrorReply("请先创建主时间线")), d)
      else
        var res := CreateCharacterTimeline(d, p.character.GetOr(CharacterSpec(None, None)), Global(d).value);
        r == (Ok(TimelineReply(res.0)), res.1)
    ensures p.action == Some("create_world") ==>
      var res := CreateWorldTimeline(d, p.timeSpan.GetOr("1000 years"));
      r == (Ok(TimelineReply(res.0)), res.1)
    ensures p.action == Some("add_event") ==>
      if p.event.None? then r == (Raise(TypeError), d)
      else
        var res := AddEvent(d, p.timelineId.GetOr(MainId), p.event.value);
        r.1 == res.1 && (res.0.Ok? ==> r.0 == Ok(SuccessReply(res.0.value))) && (res.0.Raise? ==> r.0 == Raise(res.0.exc))
    ensures p.action == Some("get_events") ==> r == (Ok(EventsReply(GetEvents(d, p))), d)
    ensures p.action == Some("detect_conflicts") ==> r == (Ok(ConflictsReply(DetectConflicts(d, p.timelineId))), d)
    ensures p.action !in {Some("create_main"), Some("create_character"), Some("create_world"), Some("add_event"),
                          Some("get_events"), Some("detect_conflicts")} ==>
      r == (Ok(ErrorReply("不支持的操作类型")), d)
  {
    match p.action
    case Some("create_main") => MainReply(d, p)
    case Some("create_character") =>
      if Global(d).None? then (Ok(ErrorReply("请先创建主时间线")), d)
      else
        var res := CreateCharacterTimeline(d, p.character.GetOr(CharacterSpec(None, None)), Global(d).value);
        (Ok(TimelineReply(res.0)), res.1)
    case Some("create_world") =>
      var res := CreateWorldTimeline(d, p.timeSpan.GetOr("1000 years"));
      (Ok(TimelineReply(res.0)), res.1)
    case Some("add_event") =>
      if p.event.None? then (Raise(TypeError), d)
      else
        var res := AddEvent(d, p.timelineId.GetOr(MainId), p.event.value);
        (match res.0
         case Ok(b) => (Ok(SuccessReply(b)), res.1)
         case Raise(x) => (Raise(x), res.1))
    case Some("get_events") => (Ok(EventsReply(GetEvents(d, p))), d)
    case Some("detect_conflicts") => (Ok(ConflictsReply(DetectConflicts(d, p.timelineId))), d)
    case _ => (Ok(ErrorReply("不支持的操作类型")), d)
  }

  /** `create_main` without an outline and with a span of N years builds
      an empty main timeline that ends N years after its start. */
  lemma MainWithoutOutline(d: Store, n: nat, start: string)
    requires WellKeyed(d)
    ensures var p := TimelineParams(Some("create_main"), None, Some(Text.NatToStr(n) + " years"), Some(start), None, None, None, None, None);
      Execute(d, p).0 == Ok(TimelineReply(Timeline(MainId, "主线时间线", "小说主要故事线的时间线", "months", [], start,
        start + "后" + Text.NatToStr(n) + "年")))
  {
    EndYears(start, n, Text.NatToStr(n) + " years");
    assert ExtractEvents([]) == Ok([]);
  }
}
