/** Emotion-graph search and dialogue planning (`DialogueWriter` in
    modules/writing/dialogue_writer.py).

    The emotion graph maps an emotion to the emotions it may turn into.  A
    progression from a start emotion to a goal is a breadth-first shortest path
    through that graph, with alias normalisation for emotions the graph does
    not know and fixed fallback paths when the goal is unreachable.  Dialogue
    lines take their speaker and emotion from the plan by position; the line
    texts come from the language model and are parameters here. */
module DialogueWriter {
  import opened Wrappers
  import opened Seqs
  import opened Text
  import Dicts
  import Json

  /** A directed graph as Python's dict of successor lists. */
  type Graph = map<string, seq<string>>

  /** `EMOTION_GRAPH.get(u, [])`. */
  function Succ(g: Graph, u: string): seq<string> {
    if u in g then g[u] else []
  }

  /** Every node that appears in the graph, as a key or as a successor. */
  ghost function Nodes(g: Graph): set<string> {
    g.Keys + set u, i | u in g && 0 <= i < |g[u]| :: g[u][i]
  }

  /** `b` is listed among the successors of `a`. */
  predicate Edge(g: Graph, a: string, b: string) {
    b in Succ(g, a)
  }

  /** `q` is a non-empty walk: each node is a successor of the one before. */
  predicate Walk(g: Graph, q: seq<string>) {
    |q| >= 1 && forall i :: 0 <= i < |q| - 1 ==> Edge(g, q[i], q[i + 1])
  }

  /** `q` is a walk from `a` to `b`. */
  predicate WalkFromTo(g: Graph, a: string, b: string, q: seq<string>) {
    Walk(g, q) && q[0] == a && q[|q| - 1] == b
  }

  ghost predicate Reachable(g: Graph, a: string, b: string) {
    exists q :: WalkFromTo(g, a, b, q)
  }

  /** No walk from `a` to `b` has fewer than `n` nodes. */
  ghost predicate NoShorterWalk(g: Graph, a: string, b: string, n: nat) {
    forall q :: WalkFromTo(g, a, b, q) ==> |q| >= n
  }

  /** The last node of each queued path, in queue order. */
  ghost function Ends(queue: seq<seq<string>>): (r: seq<string>)
    ensures |r| == |queue|
  {
    seq(|queue|, j requires 0 <= j < |queue| => if |queue[j]| > 0 then queue[j][|queue[j]| - 1] else "")
  }

  /** Every successor of `u` is in `visited`. */
  ghost predicate Expanded(g: Graph, visited: set<string>, u: string) {
    forall s :: s in Succ(g, u) ==> s in visited
  }

  /** The first node of a walk that lies outside `inside`. */
  lemma FirstOutside(q: seq<string>, inside: set<string>) returns (i: nat)
    requires |q| > 0 && q[|q| - 1] !in inside
    ensures i < |q| && q[i] !in inside
    ensures forall k :: 0 <= k < i ==> q[k] in inside
  {
    i := 0;
    while q[i] in inside
      invariant i < |q|
      invariant forall k :: 0 <= k < i ==> q[k] in inside
      decreases |q| - i
    {
      i := i + 1;
    }
  }

  /** A prefix of a walk is a walk to its own last node. */
  lemma WalkPrefix(g: Graph, q: seq<string>, n: nat)
    requires Walk(g, q) && 1 <= n <= |q|
    ensures WalkFromTo(g, q[0], q[n - 1], q[..n])
  {
  }

  /** The shortest-path argument of breadth-first search: while `current` is
      being expanded, a node not yet visited is at least one step further from
      the start than every queued or current node. */
  lemma Escape(g: Graph, start: string, visited: set<string>, queue: seq<seq<string>>,
               current: string, depth: nat, n: string)
    requires start in visited && n !in visited
    requires forall u {:trigger Expanded(g, visited, u)} ::
      u in visited ==> u in Ends(queue) || u == current || Expanded(g, visited, u)
    requires forall j :: 0 <= j < |queue| ==> |queue[j]| >= depth && |queue[j]| > 0
    requires forall j :: 0 <= j < |queue| ==> NoShorterWalk(g, start, queue[j][|queue[j]| - 1], |queue[j]|)
    requires NoShorterWalk(g, start, current, depth)
    ensures NoShorterWalk(g, start, n, depth + 1)
  {
    forall q | WalkFromTo(g, start, n, q)
      ensures |q| >= depth + 1
    {
      EscapeWalk(g, start, visited, queue, current, depth, n, q);
    }
  }

  /** The argument of `Escape` for one walk `q`: the last node of `q` still
      inside `visited` is queued or current, so the prefix up to it is no
      shorter than `depth`. */
  lemma EscapeWalk(g: Graph, start: string, visited: set<string>, queue: seq<seq<string>>,
                   current: string, depth: nat, n: string, q: seq<string>)
    requires start in visited && n !in visited
    requires forall u {:trigger Expanded(g, visited, u)} ::
      u in visited ==> u in Ends(queue) || u == current || Expanded(g, visited, u)
    requires forall j :: 0 <= j < |queue| ==> |queue[j]| >= depth && |queue[j]| > 0
    requires forall j :: 0 <= j < |queue| ==> NoShorterWalk(g, start, queue[j][|queue[j]| - 1], |queue[j]|)
    requires NoShorterWalk(g, start, current, depth)
    requires WalkFromTo(g, start, n, q)
    ensures |q| >= depth + 1
  {
    var i := FirstOutside(q, visited);
    assert i >= 1;
    var x := q[i - 1];
    assert Edge(g, x, q[i]);
    assert !Expanded(g, visited, x);
    WalkPrefix(g, q, i);
    assert WalkFromTo(g, start, x, q[..i]);
    if x != current {
      var j :| 0 <= j < |queue| && Ends(queue)[j] == x;
      assert queue[j][|queue[j]| - 1] == x;
      assert |q[..i]| >= |queue[j]| >= depth;
    } else {
      assert |q[..i]| >= depth;
    }
    assert i >= depth;
  }

  /** A walk that starts inside a set closed under successors stays inside it. */
  lemma {:induction false} ClosedKeepsWalk(g: Graph, visited: set<string>, q: seq<string>)
    requires Walk(g, q) && q[0] in visited
    requires forall u {:trigger Expanded(g, visited, u)} :: u in visited ==> Expanded(g, visited, u)
    ensures q[|q| - 1] in visited
    decreases |q|
  {
    if |q| > 1 {
      ClosedKeepsWalk(g, visited, q[..|q| - 1]);
      assert Edge(g, q[|q| - 2], q[|q| - 1]);
      assert Expanded(g, visited, q[|q| - 2]);
    }
  }

  /** Removing more of a finite set leaves strictly fewer members. */
  lemma ShrinkingRest(u: set<string>, a: set<string>, b: set<string>)
    requires a < b <= u
    ensures |u - b| < |u - a|
  {
    var x :| x in b && x !in a;
    assert u - b <= (u - a) - {x};
    SubsetCard(u - b, (u - a) - {x});
  }

  /** Breadth-first bookkeeping: every queued path is a shortest walk from
      `start` without repeats, and all its nodes have been visited. */
  ghost predicate Queued(g: Graph, start: string, queue: seq<seq<string>>, visited: set<string>) {
    forall j :: 0 <= j < |queue| ==> Dequeued(g, start, queue[j], visited)
  }

  /** `p` is a shortest simple walk from `start` through visited nodes. */
  ghost predicate Dequeued(g: Graph, start: string, p: seq<string>, visited: set<string>) {
    && |p| > 0 && WalkFromTo(g, start, p[|p| - 1], p) && Distinct(p)
    && (forall k :: 0 <= k < |p| ==> p[k] in visited)
    && NoShorterWalk(g, start, p[|p| - 1], |p|)
  }

  /** The queue holds paths of `depth` or `depth + 1` nodes, shorter first. */
  ghost predicate Layered(queue: seq<seq<string>>, depth: nat) {
    && (forall j, k :: 0 <= j <= k < |queue| ==> |queue[j]| <= |queue[k]|)
    && (forall j :: 0 <= j < |queue| ==> depth <= |queue[j]| <= depth + 1)
  }

  /** Every visited node other than `pending` ones is queued or expanded. */
  ghost predicate ClosedExcept(g: Graph, visited: set<string>, queue: seq<seq<string>>, pending: set<string>) {
    forall u {:trigger Expanded(g, visited, u)} ::
      u in visited ==> u in Ends(queue) || u in pending || Expanded(g, visited, u)
  }

  /** Queuing `p + [n]`, for an unvisited successor `n` of the path being
      expanded that is one step further than `p`, keeps every queued path a
      shortest simple walk through visited nodes. */
  lemma PushQueued(g: Graph, start: string, queue: seq<seq<string>>, visited: set<string>,
                   p: seq<string>, n: string)
    requires n !in visited && Queued(g, start, queue, visited)
    requires |p| > 0 && WalkFromTo(g, start, p[|p| - 1], p) && Distinct(p)
    requires forall k :: 0 <= k < |p| ==> p[k] in visited
    requires n in Succ(g, p[|p| - 1])
    requires NoShorterWalk(g, start, n, |p| + 1)
    ensures Queued(g, start, queue + [p + [n]], visited + {n})
  {
    var np := p + [n];
    assert WalkFromTo(g, start, n, np);
    assert Distinct(np);
    var q2 := queue + [np];
    forall j | 0 <= j < |q2| ensures Dequeued(g, start, q2[j], visited + {n}) {
      if j < |queue| {
        assert q2[j] == queue[j];
        assert Dequeued(g, start, queue[j], visited);
      }
    }
  }

  /** Queuing a path one node longer than the one being expanded keeps the
      queue layered. */
  lemma PushLayered(queue: seq<seq<string>>, p: seq<string>, n: string)
    requires Layered(queue, |p|)
    ensures Layered(queue + [p + [n]], |p|)
  {
  }

  /** Visiting `n` and queuing a path to it keeps every other visited node
      queued, pending or expanded. */
  lemma PushClosed(g: Graph, visited: set<string>, queue: seq<seq<string>>, current: string,
                   p: seq<string>, n: string)
    requires ClosedExcept(g, visited, queue, {current})
    ensures Ends(queue + [p + [n]]) == Ends(queue) + [n]
    ensures ClosedExcept(g, visited + {n}, queue + [p + [n]], {current})
  {
    assert Ends(queue + [p + [n]]) == Ends(queue) + [n];
    forall u | u in visited + {n} && !Expanded(g, visited + {n}, u)
      ensures u in Ends(queue) + [n] || u == current
    {
      if u != n {
        assert !Expanded(g, visited, u);
      }
    }
  }

  /** The state of a breadth-first search from `start` towards `end`: the
      queued paths and the visited set.  Nodes in `pending` are visited, not
      queued and not yet expanded; every queued path has `depth` or `depth + 1`
      nodes. */
  ghost predicate Searching(g: Graph, start: string, end: string, queue: seq<seq<string>>,
                            visited: set<string>, pending: set<string>, depth: nat) {
    && start in visited
    && Queued(g, start, queue, visited)
    && Layered(queue, depth)
    && ClosedExcept(g, visited, queue, pending)
    && (end in visited ==> end in Ends(queue))
  }

  /** The search state holds a first queued path of at least one node. */
  ghost function Depth(queue: seq<seq<string>>): nat {
    if |queue| > 0 then |queue[0]| else 0
  }

  /** Dequeuing drops the first end. */
  lemma EndsPop(queue: seq<seq<string>>)
    requires |queue| > 0
    ensures Ends(queue[1..]) == Ends(queue)[1..]
  {
    forall j | 0 <= j < |queue| - 1
      ensures Ends(queue[1..])[j] == Ends(queue)[j + 1]
    {
      assert queue[1..][j] == queue[j + 1];
    }
  }

  /** Dequeuing the first path leaves the rest layered above it, and leaves
      its last node pending unless it is `end`. */
  lemma Pop(g: Graph, start: string, end: string, queue: seq<seq<string>>, visited: set<string>)
    requires |queue| > 0
    requires Searching(g, start, end, queue, visited, {}, Depth(queue))
    ensures Dequeued(g, start, queue[0], visited)
    ensures queue[0][|queue[0]| - 1] != end ==>
      Searching(g, start, end, queue[1..], visited, {queue[0][|queue[0]| - 1]}, |queue[0]|)
  {
    PopQueued(g, start, queue, visited);
    PopLayered(queue);
    PopClosed(g, visited, queue);
    EndsPop(queue);
    assert Ends(queue) == [Ends(queue)[0]] + Ends(queue)[1..];
  }

  lemma PopQueued(g: Graph, start: string, queue: seq<seq<string>>, visited: set<string>)
    requires |queue| > 0 && Queued(g, start, queue, visited)
    ensures Dequeued(g, start, queue[0], visited) && Queued(g, start, queue[1..], visited)
  {
    forall j | 0 <= j < |queue| - 1 ensures queue[1..][j] == queue[j + 1] { }
  }

  lemma PopLayered(queue: seq<seq<string>>)
    requires |queue| > 0 && Layered(queue, Depth(queue))
    ensures Layered(queue[1..], |queue[0]|)
  {
    forall j | 0 <= j < |queue| - 1 ensures queue[1..][j] == queue[j + 1] { }
  }

  lemma PopClosed(g: Graph, visited: set<string>, queue: seq<seq<string>>)
    requires |queue| > 0 && ClosedExcept(g, visited, queue, {})
    ensures ClosedExcept(g, visited, queue[1..], {Ends(queue)[0]})
  {
    EndsPop(queue);
    assert Ends(queue) == [Ends(queue)[0]] + Ends(queue)[1..];
  }

  /** One step of the inner loop of `_bfs_search`: an unvisited successor
      `n` of the node being expanded is visited and `p + [n]` is queued. */
  function Visit(queue: seq<seq<string>>, visited: set<string>, p: seq<string>, n: string)
    : (r: (seq<seq<string>>, set<string>))
    ensures r.1 == visited + {n}
    ensures r.1 == visited ==> r.0 == queue
    ensures forall j :: 0 <= j < |r.0| ==> |r.0[j]| > 0 || (j < |queue| && r.0[j] == queue[j])
  {
    if n in visited then (queue, visited) else (queue + [p + [n]], visited + {n})
  }

  /** A visit keeps the search state. */
  lemma VisitKeeps(g: Graph, start: string, end: string, queue: seq<seq<string>>,
                   visited: set<string>, p: seq<string>, n: string)
    requires Dequeued(g, start, p, visited)
    requires Searching(g, start, end, queue, visited, {p[|p| - 1]}, |p|)
    requires n in Succ(g, p[|p| - 1])
    ensures var r := Visit(queue, visited, p, n);
      Searching(g, start, end, r.0, r.1, {p[|p| - 1]}, |p|) && Dequeued(g, start, p, r.1)
  {
    if n !in visited {
      Escape(g, start, visited, queue, p[|p| - 1], |p|, n);
      PushQueued(g, start, queue, visited, p, n);
      PushLayered(queue, p, n);
      PushClosed(g, visited, queue, p[|p| - 1], p, n);
    }
  }

  /** The inner loop of `_bfs_search`: visits the successors `nbrs` of the
      last node of the dequeued path `p`, in order. */
  function ExpandFrom(queue: seq<seq<string>>, visited: set<string>, p: seq<string>, nbrs: seq<string>)
    : (r: (seq<seq<string>>, set<string>))
    ensures r.1 == visited + set k | 0 <= k < |nbrs| :: nbrs[k]
    ensures r.1 == visited ==> r.0 == queue
    ensures (forall j :: 0 <= j < |queue| ==> |queue[j]| > 0) ==> forall j :: 0 <= j < |r.0| ==> |r.0[j]| > 0
    decreases |nbrs|
  {
    if |nbrs| == 0 then (queue, visited)
    else
      var v := Visit(queue, visited, p, nbrs[0]);
      var r := ExpandFrom(v.0, v.1, p, nbrs[1..]);
      assert (set k | 0 <= k < |nbrs| :: nbrs[k]) == {nbrs[0]} + set k | 0 <= k < |nbrs[1..]| :: nbrs[1..][k];
      r
  }

  /** Expanding the dequeued path keeps the search state, and afterwards its
      last node is expanded. */
  lemma {:induction false} ExpandKeeps(g: Graph, start: string, end: string, queue: seq<seq<string>>,
                                       visited: set<string>, p: seq<string>, nbrs: seq<string>)
    requires Dequeued(g, start, p, visited)
    requires Searching(g, start, end, queue, visited, {p[|p| - 1]}, |p|)
    requires forall k :: 0 <= k < |nbrs| ==> nbrs[k] in Succ(g, p[|p| - 1])
    ensures var r := ExpandFrom(queue, visited, p, nbrs);
      Searching(g, start, end, r.0, r.1, {p[|p| - 1]}, |p|)
    decreases |nbrs|
  {
    if |nbrs| > 0 {
      VisitKeeps(g, start, end, queue, visited, p, nbrs[0]);
      var v := Visit(queue, visited, p, nbrs[0]);
      ExpandKeeps(g, start, end, v.0, v.1, p, nbrs[1..]);
    }
  }

  /** Once every successor of the pending node is visited, nothing is
      pending, and the queue is layered at the depth of its first path. */
  lemma Settle(g: Graph, start: string, end: string, queue: seq<seq<string>>,
               visited: set<string>, current: string, depth: nat)
    requires Searching(g, start, end, queue, visited, {current}, depth)
    requires Expanded(g, visited, current)
    ensures Searching(g, start, end, queue, visited, {}, Depth(queue))
  {
  }

  /** With nothing queued and nothing pending, the visited set is closed
      under successors and does not hold `end`, so `end` is unreachable. */
  lemma Exhausted(g: Graph, start: string, end: string, visited: set<string>)
    requires Searching(g, start, end, [], visited, {}, 0)
    ensures !Reachable(g, start, end)
  {
    forall q | WalkFromTo(g, start, end, q)
      ensures false
    {
      ClosedKeepsWalk(g, visited, q);
    }
  }

  /** Expanding a node visits only nodes of the graph, so the unvisited part
      of the graph shrinks unless nothing new was visited. */
  lemma ExpandShrinks(g: Graph, visited: set<string>, u: string, grown: set<string>)
    requires grown == visited + set k | 0 <= k < |Succ(g, u)| :: Succ(g, u)[k]
    ensures grown != visited ==> |Nodes(g) - grown| < |Nodes(g) - visited|
  {
    if grown != visited {
      var x :| x in grown && x !in visited;
      assert x in Nodes(g);
      assert Nodes(g) - grown <= (Nodes(g) - visited) - {x};
      SubsetCard(Nodes(g) - grown, (Nodes(g) - visited) - {x});
    }
  }

  /** The `while queue` loop of `_bfs_search` from a given queue and visited
      set: the first dequeued path that ends at `end` is returned, and `[]`
      once the queue runs dry. */
  function BfsLoop(g: Graph, end: string, queue: seq<seq<string>>, visited: set<string>): (path: seq<string>)
    requires forall j :: 0 <= j < |queue| ==> |queue[j]| > 0
    decreases |Nodes(g) - visited|, |queue|
  {
    if |queue| == 0 then []
    else
      var p := queue[0];
      if p[|p| - 1] == end then p
      else
        var r := ExpandFrom(queue[1..], visited, p, Succ(g, p[|p| - 1]));
        ExpandShrinks(g, visited, p[|p| - 1], r.1);
        BfsLoop(g, end, r.0, r.1)
  }

  /** One round of the search loop: the first path is dequeued and its last
      node, which is not `end`, is expanded; the state is kept. */
  lemma Round(g: Graph, start: string, end: string, queue: seq<seq<string>>, visited: set<string>)
    requires |queue| > 0 && |queue[0]| > 0 && queue[0][|queue[0]| - 1] != end
    requires Searching(g, start, end, queue, visited, {}, Depth(queue))
    ensures var p := queue[0];
      var r := ExpandFrom(queue[1..], visited, p, Succ(g, p[|p| - 1]));
      Searching(g, start, end, r.0, r.1, {}, Depth(r.0))
  {
    var p := queue[0];
    Pop(g, start, end, queue, visited);
    var nbrs := Succ(g, p[|p| - 1]);
    ExpandKeeps(g, start, end, queue[1..], visited, p, nbrs);
    var r := ExpandFrom(queue[1..], visited, p, nbrs);
    assert Expanded(g, r.1, p[|p| - 1]) by {
      forall s | s in nbrs ensures s in r.1 {
        var k :| 0 <= k < |nbrs| && nbrs[k] == s;
      }
    }
    Settle(g, start, end, r.0, r.1, p[|p| - 1], |p|);
  }

  /** The search loop keeps its state and so returns a shortest path, or `[]`
      exactly when there is none. */
  lemma {:induction false} BfsLoopCorrect(g: Graph, start: string, end: string,
                                          queue: seq<seq<string>>, visited: set<string>)
    requires Searching(g, start, end, queue, visited, {}, Depth(queue))
    ensures forall j :: 0 <= j < |queue| ==> |queue[j]| > 0
    ensures var path := BfsLoop(g, end, queue, visited);
      && (path == [] <==> !Reachable(g, start, end))
      && (path != [] ==> WalkFromTo(g, start, end, path) && Distinct(path))
      && (path != [] ==> NoShorterWalk(g, start, end, |path|))
    decreases |Nodes(g) - visited|, |queue|
  {
    if |queue| == 0 {
      Exhausted(g, start, end, visited);
    } else {
      var p := queue[0];
      if p[|p| - 1] != end {
        Round(g, start, end, queue, visited);
        var r := ExpandFrom(queue[1..], visited, p, Succ(g, p[|p| - 1]));
        ExpandShrinks(g, visited, p[|p| - 1], r.1);
        BfsLoopCorrect(g, start, end, r.0, r.1);
      } else {
        Pop(g, start, end, queue, visited);
      }
    }
  }

  /** `_bfs_search`: breadth-first search over paths with a visited set.  The
      result is empty exactly when `end` cannot be reached; otherwise it is a
      walk from `start` to `end` without repeated nodes, and no walk between
      them is shorter. */
  function BfsSearch(g: Graph, start: string, end: string): (path: seq<string>)
    ensures path == [] <==> !Reachable(g, start, end)
    ensures path != [] ==> WalkFromTo(g, start, end, path) && Distinct(path)
    ensures path != [] ==> NoShorterWalk(g, start, end, |path|)
  {
    assert Ends([[start]]) == [start];
    BfsLoopCorrect(g, start, end, [[start]], {start});
    BfsLoop(g, end, [[start]], {start})
  }

  /** `DialogueWriter.EMOTION_GRAPH` as shipped. */
  const EmotionGraph: Graph := map[
    "neutral" := ["担忧", "平静", "悲伤", "期待", "困惑"],
    "平静" := ["不安", "中性", "满足", "期待"],
    "不安" := ["紧张", "平静", "恐惧"],
    "紧张" := ["愤怒", "不安", "焦虑"],
    "愤怒" := ["中性", "懊悔", "疲惫", "满足"],
    "悲伤" := ["反思", "中性", "忧郁", "怀旧"],
    "反思" := ["醒悟", "悲伤", "困惑"],
    "醒悟" := ["坚定", "反思", "希望"],
    "坚定" := ["希望", "中性", "满足"],
    "担忧" := ["沉重", "困惑"],
    "沉重" := ["悲壮与决绝", "决心"],
    "悲壮与决绝" := ["坚定", "释然"],
    "期待" := ["兴奋", "焦虑"],
    "困惑" := ["好奇", "醒悟"],
    "怀旧" := ["感伤", "温暖"],
    "感伤" := ["释然", "忧郁"],
    "满足" := [], "希望" := [], "释然" := [], "恐惧" := [], "疲惫" := [], "忧郁" := [],
    "温暖" := [], "决心" := [], "兴奋" := [], "焦虑" := [], "好奇" := [], "懊悔" := []
  ]

  /** The standard emotion names that `_normalize_emotion` maps aliases to. */
  const StandardEmotions: set<string> := {"neutral", "sad", "angry", "joy"}

  /** `_normalize_emotion`: an alias maps to its standard name; anything else
      is returned unchanged. */
  function NormalizeEmotion(e: string): (r: string)
    ensures r == e || r in StandardEmotions
    ensures e in StandardEmotions ==> r == e
  {
    if e in ["中性", "平常", "自然"] then "neutral"
    else if e in ["悲伤", "伤心", "悲哀"] then "sad"
    else if e in ["愤怒", "生气", "怒火"] then "angry"
    else if e in ["快乐", "开心", "喜悦"] then "joy"
    else e
  }

  /** The first category of `_fallback_path`'s table that lists `e`, or "". */
  function EmotionType(e: string): string {
    if e in ["joy", "满足", "希望", "温暖", "兴奋"] then "positive"
    else if e in ["sad", "愤怒", "恐惧", "忧郁", "懊悔"] then "negative"
    else if e in ["愤怒", "紧张", "兴奋", "焦虑"] then "intense"
    else if e in ["平静", "满足", "neutral", "释然"] then "calm"
    else ""
  }

  /** `_fallback_path`: a fixed two-step bridge for the four listed category
      pairs, otherwise a bridge through "neutral" when the graph has it. */
  function FallbackPath(g: Graph, s: string, t: string): (r: seq<string>)
    ensures 2 <= |r| <= 4 && r[0] == s && r[|r| - 1] == t
    ensures |r| == 4 <==> (
      (EmotionType(s), EmotionType(t)) in
        {("positive", "negative"), ("negative", "positive"), ("intense", "calm"), ("calm", "intense")})
    ensures |r| == 2 <==> |r| != 4 && "neutral" !in g
  {
    match (EmotionType(s), EmotionType(t))
    case ("positive", "negative") => [s, "反思", "neutral", t]
    case ("negative", "positive") => [s, "neutral", "希望", t]
    case ("intense", "calm") => [s, "疲惫", "平静", t]
    case ("calm", "intense") => [s, "不安", "紧张", t]
    case _ => if "neutral" in g then [s, "neutral", t] else [s, t]
  }

  /** Python's `xs[1:]`. */
  function Tail(xs: seq<string>): seq<string> {
    if |xs| == 0 then [] else xs[1..]
  }

  /** Joining a walk to `b` with a walk from `b` gives a walk. */
  lemma JoinWalks(g: Graph, a: string, b: string, c: string, p: seq<string>, q: seq<string>)
    requires WalkFromTo(g, a, b, p) && WalkFromTo(g, b, c, q)
    ensures WalkFromTo(g, a, c, p + q[1..])
  {
    var w := p + q[1..];
    forall i | 0 <= i < |w| - 1 ensures Edge(g, w[i], w[i + 1]) {
      if i < |p| - 1 {
      } else {
        assert w[i] == q[i - |p| + 1] && w[i + 1] == q[i - |p| + 2];
      }
    }
  }

  /** The detour through "neutral" that `_create_emotional_progression` tries
      after a failed search can only succeed when the search would have
      succeeded: its two halves join into a walk from `s` to `t`. */
  lemma DetourImpliesReachable(g: Graph, s: string, t: string)
    ensures var detour := BfsSearch(g, s, "neutral") + Tail(BfsSearch(g, "neutral", t));
      |detour| > 1 && detour[0] == s && detour[|detour| - 1] == t ==> Reachable(g, s, t)
  {
    DetourWalk(g, s, t, BfsSearch(g, s, "neutral"), BfsSearch(g, "neutral", t));
  }

  /** A joined detour whose ends are `s` and `t` is a walk from `s` to `t`. */
  lemma DetourWalk(g: Graph, s: string, t: string, p: seq<string>, q: seq<string>)
    requires p == [] || WalkFromTo(g, s, "neutral", p)
    requires q == [] || WalkFromTo(g, "neutral", t, q)
    ensures var detour := p + Tail(q);
      |detour| > 1 && detour[0] == s && detour[|detour| - 1] == t ==> Reachable(g, s, t)
  {
    var detour := p + Tail(q);
    if |detour| > 1 && detour[0] == s && detour[|detour| - 1] == t {
      if p != [] && q != [] {
        JoinWalks(g, s, "neutral", t, p, q);
        assert WalkFromTo(g, s, t, p + q[1..]);
      } else if p != [] {
        assert detour == p;
        assert WalkFromTo(g, s, t, p);
      } else {
        var w := q[1..];
        assert detour == w;
        forall i | 0 <= i < |w| - 1 ensures Edge(g, w[i], w[i + 1]) {
          assert w[i] == q[i + 1] && w[i + 1] == q[i + 2];
        }
        assert WalkFromTo(g, s, t, w);
      }
    }
  }

  /** How far `_create_emotional_progression` is from returning: a start that
      is the goal's standard name returns or repeats itself at once, a
      standard start takes one more call, any other start two. */
  function ProgressionRank(s: string, t: string): nat {
    if s == NormalizeEmotion(t) then 0 else if s in StandardEmotions then 1 else 2
  }

  /** The arguments on which `_create_emotional_progression` calls itself
      with the same arguments again: the goal is an alias the graph does not
      know, whose standard name the graph does know and is the start. */
  predicate RecursesForever(g: Graph, s: string, t: string) {
    s != t && t !in g && NormalizeEmotion(t) != t && NormalizeEmotion(t) in g && s == NormalizeEmotion(t)
  }

  /** The part of `_create_emotional_progression` for two distinct graph
      emotions: the breadth-first path, else the detour through "neutral",
      else the fallback path.  The detour never helps: it only succeeds when
      the direct search would have. */
  function SearchProgression(g: Graph, s: string, t: string): (r: seq<string>)
    requires s != t && s in g && t in g
    ensures |r| >= 1
    ensures Reachable(g, s, t) ==> WalkFromTo(g, s, t, r) && Distinct(r) && NoShorterWalk(g, s, t, |r|)
    ensures !Reachable(g, s, t) ==> r == FallbackPath(g, s, t)
  {
    var path := BfsSearch(g, s, t);
    if path != [] then path
    else if "neutral" in g then
      DetourImpliesReachable(g, s, t);
      var detour := BfsSearch(g, s, "neutral") + Tail(BfsSearch(g, "neutral", t));
      if |detour| > 1 && detour[0] == s && detour[|detour| - 1] == t then detour
      else FallbackPath(g, s, t)
    else FallbackPath(g, s, t)
  }

  /** Whether the first of the two emotions that is outside the graph is
      already its own standard name. */
  predicate UnknownIsStandard(g: Graph, s: string, t: string) {
    var e := if s !in g then s else t;
    NormalizeEmotion(e) == e
  }

  /** `_create_emotional_progression`.  An emotion outside the graph is
      replaced by its standard name as the new START, whichever of the two it
      was; when that call has the same arguments again Python's recursion
      limit is reached, modelled as `RecursionError`. */
  function EmotionalProgression(g: Graph, s: string, t: string): (r: Result<seq<string>>)
    ensures s == t ==> r == Ok([s])
    ensures r.Raise? <==>
      && s != t && t !in g && NormalizeEmotion(t) != t && NormalizeEmotion(t) in g
      && (s in g || (NormalizeEmotion(s) != s && NormalizeEmotion(s) in g))
    ensures r.Raise? ==> r.exc == RecursionError
    ensures r.Ok? ==> |r.value| >= 1
    ensures s != t && s in g && t in g ==> r == Ok(SearchProgression(g, s, t))
    ensures s != t && (s !in g || t !in g) && UnknownIsStandard(g, s, t) ==> r == Ok([s, t])
    decreases ProgressionRank(s, t)
  {
    if s == t then Ok([s])
    else if s !in g || t !in g then
      var e := if s !in g then s else t;
      var n := NormalizeEmotion(e);
      if n == e then Ok([s, t])
      else if n == s then Raise(RecursionError)
      else EmotionalProgression(g, n, t)
    else Ok(SearchProgression(g, s, t))
  }

  /** An unknown goal that is an alias is normalised into the START: the
      original start is dropped and, when the standard name is not in the
      graph either, the progression is just that name and the goal. */
  lemma AliasGoalReplacesStart(g: Graph, s: string, t: string)
    requires s != t && s in g && t !in g
    requires NormalizeEmotion(t) != t && NormalizeEmotion(t) !in g
    ensures EmotionalProgression(g, s, t) == Ok([NormalizeEmotion(t), t])
  {
  }

  /** An unknown start that is an alias is replaced by its standard name. */
  lemma AliasStartNormalised(g: Graph, s: string, t: string)
    requires s != t && s !in g && NormalizeEmotion(s) != s
    ensures EmotionalProgression(g, s, t) == EmotionalProgression(g, NormalizeEmotion(s), t)
  {
  }

  /** With the shipped graph, a dialogue whose goal is "中性" (an alias of
      "neutral" that is only a successor, not a key) never returns: the
      progression from "neutral" calls itself with the same arguments. */
  lemma NeutralAliasGoalRecursesForever()
    ensures RecursesForever(EmotionGraph, "neutral", "中性")
    ensures EmotionalProgression(EmotionGraph, "neutral", "中性") == Raise(RecursionError)
  {
  }

  /** Adds the edge `a -> b` the way one round of `add_custom_path` does:
      `a` gets a successor list if it has none, `b` is appended unless
      already listed, and `b` gets an empty list if it is not a key. */
  function AddEdge(g: Graph, a: string, b: string): (r: Graph)
    ensures r.Keys == g.Keys + {a, b}
    ensures Edge(r, a, b)
  {
    var g1 := if a in g then g else g[a := []];
    var g2 := if b in g1[a] then g1 else g1[a := g1[a] + [b]];
    if b in g2 then g2 else g2[b := []]
  }

  /** The successor list of `a` is `old + [b]` or unchanged; every other
      list is unchanged or, for a new key, empty. */
  lemma AddEdgeLists(g: Graph, a: string, b: string)
    ensures var r := AddEdge(g, a, b);
      && r[a] == (if b in Succ(g, a) then Succ(g, a) else Succ(g, a) + [b])
      && forall u :: u in r && u != a ==> r[u] == Succ(g, u)
  {
  }

  /** Existing lists only grow at the end. */
  lemma AddEdgeExtends(g: Graph, a: string, b: string)
    ensures forall u :: u in g ==> IsPrefixSeq(g[u], AddEdge(g, a, b)[u])
  {
    AddEdgeLists(g, a, b);
    var r := AddEdge(g, a, b);
    forall u | u in g ensures IsPrefixSeq(g[u], r[u]) {
      if u == a && b !in g[a] {
        assert r[u][..|g[u]|] == g[u];
      }
    }
  }

  /** Lists without duplicates gain none, and new lists have none. */
  lemma AddEdgeDistinct(g: Graph, a: string, b: string)
    ensures forall u :: u in g && Distinct(g[u]) ==> Distinct(AddEdge(g, a, b)[u])
    ensures forall u :: u !in g && u in AddEdge(g, a, b) ==> Distinct(AddEdge(g, a, b)[u])
  {
    AddEdgeLists(g, a, b);
  }

  /** The only new edge is `a -> b`. */
  lemma AddEdgeOnly(g: Graph, a: string, b: string)
    ensures forall u, v :: u in AddEdge(g, a, b) && v in AddEdge(g, a, b)[u] ==> v in Succ(g, u) || (u == a && v == b)
  {
    AddEdgeLists(g, a, b);
  }

  /** `xs` is a prefix of `ys`. */
  predicate IsPrefixSeq(xs: seq<string>, ys: seq<string>) {
    |xs| <= |ys| && ys[..|xs|] == xs
  }

  /** The nodes of `path` when it has an edge, else nothing. */
  function PathNodes(path: seq<string>): set<string> {
    if |path| < 2 then {} else set i | 0 <= i < |path| :: path[i]
  }

  /** `path` has `u -> v` as consecutive nodes. */
  predicate Consecutive(path: seq<string>, u: string, v: string) {
    exists i :: 0 <= i < |path| - 1 && path[i] == u && path[i + 1] == v
  }

  /** `add_custom_path`: adds the consecutive pairs of `path` as edges, in
      order; every node of a path with an edge becomes a key. */
  function AddCustomPath(g: Graph, path: seq<string>): (r: Graph)
    ensures r.Keys == g.Keys + PathNodes(path)
    decreases |path|
  {
    if |path| < 2 then g
    else
      PathNodesCons(path);
      AddCustomPath(AddEdge(g, path[0], path[1]), path[1..])
  }

  lemma PathNodesCons(path: seq<string>)
    requires |path| >= 2
    ensures PathNodes(path) == {path[0], path[1]} + PathNodes(path[1..])
  {
    if |path| > 2 {
      forall i | 0 <= i < |path| ensures path[i] in {path[0]} + PathNodes(path[1..]) {
        if i > 0 { assert path[i] == path[1..][i - 1]; }
      }
    }
  }

  /** `xs` grows into `ys` at the end. */
  lemma PrefixTrans(xs: seq<string>, ys: seq<string>, zs: seq<string>)
    requires IsPrefixSeq(xs, ys) && IsPrefixSeq(ys, zs)
    ensures IsPrefixSeq(xs, zs)
  {
    assert zs[..|xs|] == zs[..|ys|][..|xs|];
  }

  /** Existing successor lists only grow at the end, and lists without
      duplicates stay without duplicates. */
  lemma {:induction false} AddCustomPathGrows(g: Graph, path: seq<string>)
    ensures forall u :: u in g ==> IsPrefixSeq(g[u], AddCustomPath(g, path)[u])
    ensures forall u :: u in g && Distinct(g[u]) ==> Distinct(AddCustomPath(g, path)[u])
    ensures forall u :: u !in g && u in AddCustomPath(g, path) ==> Distinct(AddCustomPath(g, path)[u])
    decreases |path|
  {
    if |path| >= 2 {
      var g1 := AddEdge(g, path[0], path[1]);
      AddCustomPathGrows(g1, path[1..]);
      AddEdgeExtends(g, path[0], path[1]);
      AddEdgeDistinct(g, path[0], path[1]);
      var r := AddCustomPath(g, path);
      assert r == AddCustomPath(g1, path[1..]);
      forall u | u in g ensures IsPrefixSeq(g[u], r[u]) {
        PrefixTrans(g[u], g1[u], r[u]);
      }
    }
  }

  /** Every edge of the result was already in `g` or is a consecutive pair
      of `path`. */
  lemma {:induction false} AddCustomPathOnlyPath(g: Graph, path: seq<string>)
    ensures forall u, v :: u in AddCustomPath(g, path) && v in AddCustomPath(g, path)[u] ==>
      v in Succ(g, u) || Consecutive(path, u, v)
    decreases |path|
  {
    if |path| >= 2 {
      var g1 := AddEdge(g, path[0], path[1]);
      AddCustomPathOnlyPath(g1, path[1..]);
      AddEdgeOnly(g, path[0], path[1]);
      var r := AddCustomPath(g, path);
      assert r == AddCustomPath(g1, path[1..]);
      forall u, v | u in r && v in r[u] ensures v in Succ(g, u) || Consecutive(path, u, v) {
        if v !in Succ(g1, u) {
          ConsecutiveTail(path, u, v);
        } else if v !in Succ(g, u) {
          assert Consecutive(path, u, v) by { assert path[0] == u && path[1] == v; }
        }
      }
    }
  }

  lemma ConsecutiveTail(path: seq<string>, u: string, v: string)
    requires |path| >= 1 && Consecutive(path[1..], u, v)
    ensures Consecutive(path, u, v)
  {
    var i :| 0 <= i < |path[1..]| - 1 && path[1..][i] == u && path[1..][i + 1] == v;
    assert path[i + 1] == u && path[i + 2] == v;
  }

  /** After `add_custom_path` every consecutive pair of the path is an edge. */
  lemma {:induction false} AddCustomPathLinks(g: Graph, path: seq<string>)
    ensures forall i :: 0 <= i < |path| - 1 ==> Edge(AddCustomPath(g, path), path[i], path[i + 1])
    decreases |path|
  {
    if |path| >= 2 {
      var g1 := AddEdge(g, path[0], path[1]);
      var r := AddCustomPath(g1, path[1..]);
      assert r == AddCustomPath(g, path);
      AddCustomPathLinks(g1, path[1..]);
      AddCustomPathGrows(g1, path[1..]);
      FirstLinkKept(g1[path[0]], r[path[0]], path[1]);
      forall i | 1 <= i < |path| - 1 ensures Edge(r, path[i], path[i + 1]) {
        assert path[1..][i - 1] == path[i] && path[1..][i] == path[i + 1];
      }
    }
  }

  lemma FirstLinkKept(xs: seq<string>, ys: seq<string>, b: string)
    requires IsPrefixSeq(xs, ys) && b in xs
    ensures b in ys
  {
    var k :| 0 <= k < |xs| && xs[k] == b;
    assert ys[k] == ys[..|xs|][k];
  }

  // ---------------------------------------------------------------------
  // Dialogue planning and line assignment
  // ---------------------------------------------------------------------

  /** `line_count_map.get(length, 8)`. */
  function LineCount(length: string): (n: nat)
    ensures n in {4, 8, 15}
    ensures n == 4 <==> length == "short"
    ensures n == 15 <==> length == "long"
  {
    if length == "short" then 4 else if length == "long" then 15 else 8
  }

  /** The part of `_plan_dialogue_structure`'s result that later steps read. */
  datatype Plan = Plan(totalLines: nat, progression: seq<string>)

  /** `_plan_dialogue_structure`: the line count for `length` and the
      progression from "neutral" to the goal.  It raises exactly when the
      progression does. */
  function PlanDialogueStructure(g: Graph, goal: string, length: string): (r: Result<Plan>)
    ensures r.Raise? <==> EmotionalProgression(g, "neutral", goal).Raise?
    ensures r.Ok? ==> r.value.totalLines == LineCount(length) && |r.value.progression| >= 1
    ensures goal == "neutral" ==> r == Ok(Plan(LineCount(length), ["neutral"]))
    ensures "neutral" in g && goal in g && goal != "neutral" && Reachable(g, "neutral", goal) ==>
      && r.Ok? && WalkFromTo(g, "neutral", goal, r.value.progression)
      && NoShorterWalk(g, "neutral", goal, |r.value.progression|)
  {
    var progression :- EmotionalProgression(g, "neutral", goal);
    Ok(Plan(LineCount(length), progression))
  }

  /** Which third of the dialogue line `i` of `total` falls in: 0 while
      `i / total < 0.3`, 1 while it is below 0.7, else 2.  Stated on
      integers; with the line counts 4, 8 and 15 no quotient lies close
      enough to 0.3 or 0.7 for floating-point rounding to matter. */
  function Phase(i: nat, total: nat): (k: nat)
    requires i < total
    ensures k <= 2
    ensures k == 0 <==> 10 * i < 3 * total
    ensures k == 2 <==> 10 * i >= 7 * total
  {
    if 10 * i < 3 * total then 0 else if 10 * i < 7 * total then 1 else 2
  }

  /** Later lines never fall in an earlier phase. */
  lemma PhaseMonotone(i: nat, j: nat, total: nat)
    requires i <= j < total
    ensures Phase(i, total) <= Phase(j, total)
  {
  }

  /** The first line is always in phase 0 and, from four lines on, the
      last is always in phase 2. */
  lemma PhaseEnds(total: nat)
    requires total >= 4
    ensures Phase(0, total) == 0 && Phase(total - 1, total) == 2
  {
  }

  /** The emotion of line `i`: "neutral" in phase 0, else the progression
      entry at index 1 or 2, which raises IndexError if the list is too short. */
  function LineEmotion(progression: seq<string>, i: nat, total: nat): (r: Result<string>)
    requires i < total
    ensures r.Raise? <==> Phase(i, total) >= |progression| && Phase(i, total) > 0
    ensures r.Raise? ==> r.exc == IndexError
    ensures r.Ok? ==> ((Phase(i, total) == 0 && r.value == "neutral")
      || (Phase(i, total) > 0 && r.value == progression[Phase(i, total)]))
  {
    var k := Phase(i, total);
    if k == 0 then Ok("neutral")
    else if k < |progression| then Ok(progression[k])
    else Raise(IndexError)
  }

  /** `_generate_action_tag`: the gesture for an emotion, "停顿" by default. */
  function ActionTag(emotion: string): (r: string)
    ensures r == "停顿" <==> emotion !in {"angry", "sad", "happy", "surprised", "fear", "neutral"}
    ensures emotion == "neutral" ==> r == "点头"
  {
    if emotion == "angry" then "皱眉"
    else if emotion == "sad" then "叹气"
    else if emotion == "happy" then "微笑"
    else if emotion == "surprised" then "瞪大眼睛"
    else if emotion == "fear" then "后退一步"
    else if emotion == "neutral" then "点头"
    else "停顿"
  }

  /** One line of dialogue. */
  datatype DialogueLine = DialogueLine(speaker: string, content: string, emotion: string, action: Option<string>)

  /** The line `_generate_dialogue_lines` builds for index `i` with the
      model's reply `reply`. */
  function LineAt(plan: Plan, speakers: seq<string>, reply: string, i: nat): (r: Result<DialogueLine>)
    requires i < plan.totalLines && |speakers| > 0
    ensures r.Raise? <==> LineEmotion(plan.progression, i, plan.totalLines).Raise?
    ensures r.Ok? ==> (
      && r.value.speaker == speakers[i % |speakers|] && r.value.content == Strip(reply)
      && r.value.emotion == LineEmotion(plan.progression, i, plan.totalLines).value
      && (r.value.action.Some? <==> i % 3 == 0)
      && (r.value.action.Some? ==> r.value.action.value == ActionTag(r.value.emotion)))
  {
    var emotion :- LineEmotion(plan.progression, i, plan.totalLines);
    Ok(DialogueLine(speakers[i % |speakers|], Strip(reply), emotion,
      if i % 3 == 0 then Some(ActionTag(emotion)) else None))
  }

  /** `_generate_dialogue_lines`: the speakers are the keys of
      `character_info` in order and `replies[j]` is the language model's
      answer for line `j`.  No speakers means ZeroDivisionError as soon as
      there is a line. */
  function GenerateDialogueLines(plan: Plan, speakers: seq<string>, replies: seq<string>): (r: Result<seq<DialogueLine>>)
    requires plan.totalLines <= |replies|
    ensures |speakers| == 0 && plan.totalLines > 0 ==> r == Raise(ZeroDivisionError)
    ensures r.Ok? ==> |r.value| == plan.totalLines
  {
    if plan.totalLines == 0 then Ok([])
    else if |speakers| == 0 then Raise(ZeroDivisionError)
    else Collect(LineResults(plan, speakers, replies))
  }

  /** The outcome of each line in turn. */
  function LineResults(plan: Plan, speakers: seq<string>, replies: seq<string>): (rs: seq<Result<DialogueLine>>)
    requires plan.totalLines <= |replies| && |speakers| > 0
    ensures |rs| == plan.totalLines
    ensures forall j :: 0 <= j < |rs| ==> rs[j] == LineAt(plan, speakers, replies[j], j)
  {
    seq(plan.totalLines, j requires 0 <= j < plan.totalLines => LineAt(plan, speakers, replies[j], j))
  }

  /** Line `j` is spoken by speaker `j mod n`, carries the stripped reply
      `j`, the emotion of its phase, and an action tag iff `j mod 3 = 0`. */
  lemma GenerateDialogueLinesContent(plan: Plan, speakers: seq<string>, replies: seq<string>)
    requires plan.totalLines <= |replies|
    ensures var r := GenerateDialogueLines(plan, speakers, replies);
      r.Ok? ==> forall j :: 0 <= j < |r.value| ==> (
        && r.value[j].speaker == speakers[j % |speakers|] && r.value[j].content == Strip(replies[j])
        && Ok(r.value[j].emotion) == LineEmotion(plan.progression, j, plan.totalLines)
        && (r.value[j].action.Some? <==> j % 3 == 0))
  {
    var r := GenerateDialogueLines(plan, speakers, replies);
    if r.Ok? && plan.totalLines > 0 {
      var rs := LineResults(plan, speakers, replies);
      forall j | 0 <= j < |r.value|
        ensures && r.value[j].speaker == speakers[j % |speakers|] && r.value[j].content == Strip(replies[j])
          && Ok(r.value[j].emotion) == LineEmotion(plan.progression, j, plan.totalLines)
          && (r.value[j].action.Some? <==> j % 3 == 0)
      {
        assert rs[j] == Ok(r.value[j]);
      }
    }
  }

  /** With speakers, the generation raises exactly when some line's emotion
      index is out of range, and then it is IndexError. */
  lemma GenerateDialogueLinesRaises(plan: Plan, speakers: seq<string>, replies: seq<string>)
    requires plan.totalLines <= |replies| && |speakers| > 0
    ensures var r := GenerateDialogueLines(plan, speakers, replies);
      && (r.Raise? <==> exists j :: 0 <= j < plan.totalLines && LineEmotion(plan.progression, j, plan.totalLines).Raise?)
      && (r.Raise? ==> r.exc == IndexError)
  {
    var r := GenerateDialogueLines(plan, speakers, replies);
    if plan.totalLines > 0 {
      var rs := LineResults(plan, speakers, replies);
      if r.Raise? {
        var j :| 0 <= j < |rs| && rs[j] == Raise(r.exc);
        assert LineEmotion(plan.progression, j, plan.totalLines).Raise?;
      } else {
        forall j | 0 <= j < plan.totalLines ensures LineEmotion(plan.progression, j, plan.totalLines).Ok? {
          assert rs[j].Ok?;
        }
      }
    }
  }

  /** A progression of fewer than three emotions can never make a full
      dialogue: the last line reads index 2.  In particular the default goal
      "neutral" plans the progression ["neutral"], so every exchange with
      at least one speaker raises IndexError. */
  lemma ShortProgressionRaises(plan: Plan, speakers: seq<string>, replies: seq<string>)
    requires plan.totalLines <= |replies| && |speakers| > 0
    requires plan.totalLines >= 4 && |plan.progression| < 3
    ensures GenerateDialogueLines(plan, speakers, replies) == Raise(IndexError)
  {
    var last := plan.totalLines - 1;
    PhaseEnds(plan.totalLines);
    assert LineEmotion(plan.progression, last, plan.totalLines).Raise?;
    GenerateDialogueLinesRaises(plan, speakers, replies);
  }

  // ---------------------------------------------------------------------
  // Parsing a free-form reply into lines
  // ---------------------------------------------------------------------

  /** Every line of a reply with surrounding whitespace removed. */
  function StripAll(lines: seq<string>): (r: seq<string>)
    ensures |r| == |lines| && forall j :: 0 <= j < |lines| ==> r[j] == Strip(lines[j])
  {
    seq(|lines|, j requires 0 <= j < |lines| => Strip(lines[j]))
  }

  /** The indices `>= i` of the non-empty entries of `xs`, in order. */
  function NonEmptyFrom(xs: seq<string>, i: nat): (r: seq<nat>)
    requires i <= |xs|
    ensures forall k :: 0 <= k < |r| ==> i <= r[k] < |xs|
    decreases |xs| - i
  {
    if i == |xs| then []
    else if xs[i] != [] then [i] + NonEmptyFrom(xs, i + 1)
    else NonEmptyFrom(xs, i + 1)
  }

  /** An index is listed exactly when its entry is non-empty. */
  lemma {:induction false} NonEmptyFromMembers(xs: seq<string>, i: nat)
    requires i <= |xs|
    ensures forall j :: i <= j < |xs| ==> (j in NonEmptyFrom(xs, i) <==> xs[j] != [])
    decreases |xs| - i
  {
    if i < |xs| {
      NonEmptyFromMembers(xs, i + 1);
    }
  }

  /** The indices are listed in ascending order. */
  lemma {:induction false} NonEmptyFromAscending(xs: seq<string>, i: nat)
    requires i <= |xs|
    ensures forall k :: 0 <= k < |NonEmptyFrom(xs, i)| - 1 ==> NonEmptyFrom(xs, i)[k] < NonEmptyFrom(xs, i)[k + 1]
    decreases |xs| - i
  {
    if i < |xs| {
      NonEmptyFromAscending(xs, i + 1);
      var rest := NonEmptyFrom(xs, i + 1);
      assert forall k :: 0 <= k < |rest| - 1 ==> rest[k] < rest[k + 1];
      if xs[i] != [] {
        var r := NonEmptyFrom(xs, i);
        assert r == [i] + rest;
        forall k | 0 <= k < |r| - 1 ensures r[k] < r[k + 1] {
          assert r[k + 1] == rest[k];
          if k > 0 {
            var k' := k - 1;
            assert rest[k'] < rest[k' + 1];
          }
        }
      }
    }
  }

  /** The speaker label by raw line index: "角色1" on even, "角色2" on odd. */
  function SpeakerLabel(i: nat): (r: string)
    ensures r == "角色" + NatToStr(i % 2 + 1)
  {
    if i % 2 == 0 then "角色1" else "角色2"
  }

  /** Parses the stripped lines `i ..` of a reply: a non-empty one becomes
      a neutral line without action. */
  function ParseFrom(stripped: seq<string>, i: nat): (r: seq<DialogueLine>)
    requires i <= |stripped|
    decreases |stripped| - i
  {
    if i == |stripped| then []
    else if stripped[i] != [] then
      [DialogueLine(SpeakerLabel(i), stripped[i], "neutral", None)] + ParseFrom(stripped, i + 1)
    else ParseFrom(stripped, i + 1)
  }

  /** `_parse_dialogue_response`: split the reply at newlines and keep the
      lines that are not blank. */
  function ParseDialogueResponse(response: string): (r: seq<DialogueLine>)
  {
    ParseFrom(StripAll(Split(response, '\n')), 0)
  }

  /** The parsed lines are exactly the non-empty stripped lines, in order,
      each labelled by the parity of its raw index (blank lines still count
      towards the index). */
  lemma {:induction false} ParseFromMatches(stripped: seq<string>, i: nat)
    requires i <= |stripped|
    ensures |ParseFrom(stripped, i)| == |NonEmptyFrom(stripped, i)|
    ensures forall k :: 0 <= k < |ParseFrom(stripped, i)| ==>
      ParseFrom(stripped, i)[k] == DialogueLine(SpeakerLabel(NonEmptyFrom(stripped, i)[k]),
        stripped[NonEmptyFrom(stripped, i)[k]], "neutral", None)
    decreases |stripped| - i
  {
    if i < |stripped| {
      ParseFromMatches(stripped, i + 1);
      var rest := ParseFrom(stripped, i + 1);
      var idx := NonEmptyFrom(stripped, i + 1);
      if stripped[i] != [] {
        var r := ParseFrom(stripped, i);
        assert r == [DialogueLine(SpeakerLabel(i), stripped[i], "neutral", None)] + rest;
        assert NonEmptyFrom(stripped, i) == [i] + idx;
        forall k | 1 <= k < |r|
          ensures r[k] == DialogueLine(SpeakerLabel(([i] + idx)[k]), stripped[([i] + idx)[k]], "neutral", None)
        {
          assert r[k] == rest[k - 1];
          assert ([i] + idx)[k] == idx[k - 1];
        }
      }
    }
  }

  /** `_parse_dialogue_response` keeps one line per non-blank line of the
      reply, in order, with the stripped text, the speaker by raw index
      parity and the emotion "neutral"; blank lines give nothing. */
  lemma ParseDialogueResponseMatches(response: string)
    ensures var lines := Split(response, '\n'); var idx := NonEmptyFrom(StripAll(lines), 0);
      var r := ParseDialogueResponse(response);
      && |r| == |idx|
      && (forall k :: 0 <= k < |r| ==> (
        && r[k].content == Strip(lines[idx[k]]) && r[k].content != []
        && r[k].speaker == SpeakerLabel(idx[k]) && r[k].emotion == "neutral" && r[k].action == None))
      && (forall j :: 0 <= j < |lines| ==> (j in idx <==> Strip(lines[j]) != []))
      && (forall k :: 0 <= k < |idx| - 1 ==> idx[k] < idx[k + 1])
  {
    var stripped := StripAll(Split(response, '\n'));
    ParseFromMatches(stripped, 0);
    NonEmptyFromMembers(stripped, 0);
    NonEmptyFromAscending(stripped, 0);
  }

  // ---------------------------------------------------------------------
  // Character voices

  /** The speaking style `_analyze_character_voice` derives from a
      character's information. */
  datatype Voice = Voice(
    formality: string, vocabulary: string, sentenceLength: string,
    emotionalExpression: string, speechPatterns: seq<string>, culture: Json.Value)

  /** `_analyze_character_voice`: markers in `str()` of the personality and
      background pick each style; the culture is the background's, 通用 by
      default.  Information that is not a dictionary, or a background that
      is not one, has no `.get` and raises `AttributeError`. */
  function AnalyzeCharacterVoice(info: Json.Value): (r: Result<Voice>)
    ensures r.Raise? <==> !info.Obj? || !Json.Field(info.fields, "background", Json.Obj([])).Obj?
    ensures r.Raise? ==> r.exc == AttributeError
    ensures r.Ok? ==>
              var personality := Json.Display(Json.Field(info.fields, "personality", Json.Obj([])));
              var background := Json.Field(info.fields, "background", Json.Obj([]));
              && (r.value.formality == "formal" <==> Contains(personality, "正式"))
              && (r.value.vocabulary == "advanced" <==> Contains(Json.Display(background), "博学"))
              && (r.value.sentenceLength == "long" <==> Contains(personality, "文雅"))
              && (r.value.emotionalExpression == "restrained" <==> Contains(personality, "内敛"))
              && r.value.formality in {"formal", "informal"} && r.value.vocabulary in {"advanced", "simple"}
              && r.value.sentenceLength in {"long", "short"} && r.value.emotionalExpression in {"restrained", "open"}
              && r.value.culture == Json.Field(background.fields, "culture", Json.Str("通用"))
  {
    if !info.Obj? then Raise(AttributeError)
    else
      var personality := Json.Display(Json.Field(info.fields, "personality", Json.Obj([])));
      var background := Json.Field(info.fields, "background", Json.Obj([]));
      if !background.Obj? then Raise(AttributeError)
      else
        Ok(Voice(
          if Contains(personality, "正式") then "formal" else "informal",
          if Contains(Json.Display(background), "博学") then "advanced" else "simple",
          if Contains(personality, "文雅") then "long" else "short",
          if Contains(personality, "内敛") then "restrained" else "open",
          ["习惯用语", "口头禅"],
          Json.Field(background.fields, "culture", Json.Str("通用"))))
  }

  /** The voice cache the writer keeps across calls, keyed by participant. */
  type Voices = map<string, Voice>

  /** Whether a participant needs no analysis or analyses cleanly against
      `characterInfo` (which must then be a dictionary to look it up in). */
  predicate VoiceReady(voices: Voices, characterInfo: Json.Value, p: string) {
    p in voices ||
    (characterInfo.Obj? && AnalyzeCharacterVoice(Json.Field(characterInfo.fields, p, Json.Obj([]))).Ok?)
  }

  /** The voice of participant `p`: `character_info.get(p, {})` raises
      AttributeError unless the character info is a dictionary. */
  function VoiceOf(characterInfo: Json.Value, p: string): (r: Result<Voice>)
    ensures r.Ok? <==> VoiceReady(map[], characterInfo, p)
    ensures r.Raise? ==> r.exc == AttributeError
    ensures characterInfo.Obj? ==> r == AnalyzeCharacterVoice(Json.Field(characterInfo.fields, p, Json.Obj([])))
  {
    if !characterInfo.Obj? then Raise(AttributeError)
    else AnalyzeCharacterVoice(Json.Field(characterInfo.fields, p, Json.Obj([])))
  }

  /** Fills a cache in key order: every key not yet cached is analysed and
      cached; the first analysis that raises stops the walk and keeps the
      entries cached before it. */
  function CacheAll<V>(cache: map<string, V>, keys: seq<string>, analyse: string -> Result<V>): (r: (Option<Exc>, map<string, V>))
    ensures r.0.None? <==> forall i :: 0 <= i < |keys| ==> keys[i] in cache || analyse(keys[i]).Ok?
    ensures r.0.Some? ==> exists q :: q in keys && analyse(q) == Raise(r.0.value)
    ensures cache.Keys <= r.1.Keys && forall q :: q in cache ==> r.1[q] == cache[q]
    ensures r.0.None? ==> forall i :: 0 <= i < |keys| ==> keys[i] in r.1
    ensures forall q :: q in r.1 && q !in cache ==> q in keys && analyse(q) == Ok(r.1[q])
    decreases |keys|
  {
    if |keys| == 0 then (None, cache)
    else
      var p := keys[0];
      var rest := keys[1..];
      assert forall i :: 1 <= i < |keys| ==> keys[i] == rest[i - 1];
      if p in cache then CacheAll(cache, rest, analyse)
      else
        match analyse(p)
        case Raise(x) => (Some(x), cache)
        case Ok(v) => CacheAll(cache[p := v], rest, analyse)
  }

  /** The first loop of `write_dialogue_exchange`: each participant not yet
      in the cache is analysed and cached, in order.  A raise leaves the
      participants analysed before it cached. */
  function AnalyzeVoices(voices: Voices, participants: seq<string>, characterInfo: Json.Value): (r: (Option<Exc>, Voices))
    ensures r.0.None? <==> forall i :: 0 <= i < |participants| ==> VoiceReady(voices, characterInfo, participants[i])
    ensures r.0.Some? ==> r.0.value == AttributeError
    ensures voices.Keys <= r.1.Keys && forall q :: q in voices ==> r.1[q] == voices[q]
    ensures r.0.None? ==> forall i :: 0 <= i < |participants| ==> participants[i] in r.1
    ensures forall q :: q in r.1 && q !in voices ==>
              && q in participants && characterInfo.Obj?
              && AnalyzeCharacterVoice(Json.Field(characterInfo.fields, q, Json.Obj([]))) == Ok(r.1[q])
  {
    CacheAll(voices, participants, (q: string) => VoiceOf(characterInfo, q))
  }

  // ---------------------------------------------------------------------
  // The dialogue_writer tool
  // ---------------------------------------------------------------------

  /** The `parameters` the tool reads.  `characterInfo` is the
      `character_info` value as given; its keys, in insertion order, are
      the speakers. */
  datatype DialogueParams = DialogueParams(
    dialogueType: Option<string>, participants: Option<seq<string>>, topic: Option<string>,
    context: Option<string>, characterInfo: Option<Json.Value>, emotionalGoal: Option<string>,
    length: Option<string>, wordCount: Option<Json.Value>)

  /** `DialogueExchange`, as returned by `write_dialogue_exchange`. */
  datatype Exchange = Exchange(participants: seq<string>, topic: string, context: string,
    emotionalArc: string, lines: seq<DialogueLine>, wordCount: nat)

  datatype DialogueOutput =
    | ExchangeOut(exchange: Exchange)
    | MonologueOut(monologue: string)
    | ErrorOut(error: string)

  /** Total characters of the line contents. */
  function ContentLength(lines: seq<DialogueLine>): (n: nat)
    ensures lines == [] ==> n == 0
  {
    if lines == [] then 0 else |lines[0].content| + ContentLength(lines[1..])
  }

  /** `write_dialogue_exchange`: analyse the voices of new participants,
      plan, generate, and refine (the refining step returns the lines
      unchanged).  The speakers are the keys of `characterInfo`. */
  function WriteDialogueExchange(g: Graph, voices: Voices, participants: seq<string>, topic: string,
    context: string, characterInfo: Json.Value, goal: string, length: string,
    replies: seq<string>): (r: (Result<Exchange>, Voices))
    requires |replies| >= 15
    ensures r.1 == AnalyzeVoices(voices, participants, characterInfo).1
    ensures AnalyzeVoices(voices, participants, characterInfo).0.Some? ==> r.0 == Raise(AttributeError)
    ensures r.0.Ok? ==>
              && AnalyzeVoices(voices, participants, characterInfo).0.None?
              && characterInfo.Obj? && PlanDialogueStructure(g, goal, length).Ok?
              && GenerateDialogueLines(PlanDialogueStructure(g, goal, length).value,
                                       Dicts.Keys(characterInfo.fields), replies) == Ok(r.0.value.lines)
              && r.0.value.participants == participants && r.0.value.emotionalArc == goal
              && |r.0.value.lines| == LineCount(length) && r.0.value.wordCount == ContentLength(r.0.value.lines)
    ensures AnalyzeVoices(voices, participants, characterInfo).0.None? ==>
              && (EmotionalProgression(g, "neutral", goal).Raise? ==> r.0 == Raise(RecursionError))
              && (EmotionalProgression(g, "neutral", goal).Ok? && !characterInfo.Obj? ==> r.0 == Raise(AttributeError))
              && (EmotionalProgression(g, "neutral", goal).Ok? && characterInfo == Json.Obj([]) ==>
                    r.0 == Raise(ZeroDivisionError))
  {
    var (e, cached) := AnalyzeVoices(voices, participants, characterInfo);
    if e.Some? then (Raise(e.value), cached)
    else
      match PlanDialogueStructure(g, goal, length)
      case Raise(x) => (Raise(x), cached)
      case Ok(plan) =>
        if !characterInfo.Obj? then (Raise(AttributeError), cached)
        else
          match GenerateDialogueLines(plan, Dicts.Keys(characterInfo.fields), replies)
          case Raise(x) => (Raise(x), cached)
          case Ok(lines) => (Ok(Exchange(participants, topic, context, goal, lines, ContentLength(lines))), cached)
  }

  /** `write_character_monologue`: the personality is looked up for the
      prompt and the token budget is `int(word_count * 1.5)`; the text is
      the language model's reply. */
  function WriteCharacterMonologue(characterInfo: Json.Value, wordCount: Json.Value, reply: string): (r: Result<string>)
    ensures r.Ok? <==> characterInfo.Obj? && (wordCount.Int? || wordCount.Bool?)
    ensures !characterInfo.Obj? ==> r == Raise(AttributeError)
    ensures characterInfo.Obj? && r.Raise? ==> r.exc == TypeError
    ensures r.Ok? ==> r.value == reply
  {
    if !characterInfo.Obj? then Raise(AttributeError)
    else if !(wordCount.Int? || wordCount.Bool?) then Raise(TypeError)
    else Ok(reply)
  }

  /** `DialogueWriterTool.execute`: "exchange" and "monologue" are served,
      anything else (including the advertised "exposition") is an error
      object.  `replies` are the language model's answers in call order;
      only an exchange touches the voice cache. */
  function Execute(voices: Voices, p: DialogueParams, replies: seq<string>): (r: (Result<DialogueOutput>, Voices))
    requires |replies| >= 15
    ensures p.dialogueType != Some("exchange") ==> r.1 == voices
    ensures p.dialogueType !in {Some("exchange"), Some("monologue")} ==> r.0 == Ok(ErrorOut("不支持的对话类型"))
    ensures p.dialogueType == Some("monologue") ==>
              r.0 == (match WriteCharacterMonologue(p.characterInfo.GetOr(Json.Obj([])), p.wordCount.GetOr(Json.Int(200)), replies[0])
                      case Ok(m) => Ok(MonologueOut(m))
                      case Raise(x) => Raise(x))
    ensures p.dialogueType == Some("exchange") ==>
              var participants := p.participants.GetOr(["角色1", "角色2"]);
              var info := p.characterInfo.GetOr(Json.Obj([]));
              && r.1 == AnalyzeVoices(voices, participants, info).1
              && (AnalyzeVoices(voices, participants, info).0.Some? ==> r.0 == Raise(AttributeError))
              && (r.0.Ok? ==>
                    && r.0.value.ExchangeOut?
                    && r.0.value.exchange.participants == participants
                    && r.0.value.exchange.emotionalArc == p.emotionalGoal.GetOr("neutral")
                    && |r.0.value.exchange.lines| == LineCount(p.length.GetOr("medium")))
  {
    if p.dialogueType == Some("exchange") then
      var (ex, cached) := WriteDialogueExchange(EmotionGraph, voices, p.participants.GetOr(["角色1", "角色2"]),
        p.topic.GetOr("对话主题"), p.context.GetOr("对话背景"), p.characterInfo.GetOr(Json.Obj([])),
        p.emotionalGoal.GetOr("neutral"), p.length.GetOr("medium"), replies);
      (if ex.Ok? then Ok(ExchangeOut(ex.value)) else Raise(ex.exc), cached)
    else if p.dialogueType == Some("monologue") then
      match WriteCharacterMonologue(p.characterInfo.GetOr(Json.Obj([])), p.wordCount.GetOr(Json.Int(200)), replies[0])
      case Ok(m) => (Ok(MonologueOut(m)), voices)
      case Raise(x) => (Raise(x), voices)
    else (Ok(ErrorOut("不支持的对话类型")), voices)
  }

  /** With every parameter left at its default the exchange cannot succeed:
      `character_info` defaults to an empty dictionary, so the default
      participants analyse cleanly and the first line divides by zero. */
  lemma DefaultExchangeFails(voices: Voices, replies: seq<string>)
    requires |replies| >= 15
    ensures Execute(voices, DialogueParams(Some("exchange"), None, None, None, None, None, None, None), replies).0
      == Raise(ZeroDivisionError)
  {
    var info := Json.Obj([]);
    assert VoiceReady(voices, info, "角色1") && VoiceReady(voices, info, "角色2");
    var participants := ["角色1", "角色2"];
    assert forall i :: 0 <= i < |participants| ==> VoiceReady(voices, info, participants[i]);
    assert AnalyzeVoices(voices, participants, info).0.None?;
    assert EmotionalProgression(EmotionGraph, "neutral", "neutral").Ok?;
    assert WriteDialogueExchange(EmotionGraph, voices, participants, "对话主题", "对话背景", info, "neutral", "medium", replies).0
      == Raise(ZeroDivisionError);
  }

  /** With speakers but the default goal "neutral" it fails too, on the
      first line of the second phase, once the default participants'
      voices are analysed. */
  lemma DefaultGoalFails(voices: Voices, info: Dicts.Dict<string, Json.Value>, replies: seq<string>)
    requires |replies| >= 15 && |info| > 0
    requires VoiceReady(voices, Json.Obj(info), "角色1") && VoiceReady(voices, Json.Obj(info), "角色2")
    ensures Execute(voices, DialogueParams(Some("exchange"), None, None, None, Some(Json.Obj(info)), None, None, None), replies).0
      == Raise(IndexError)
  {
    var participants := ["角色1", "角色2"];
    var ci := Json.Obj(info);
    assert forall i :: 0 <= i < |participants| ==> VoiceReady(voices, ci, participants[i]);
    assert AnalyzeVoices(voices, participants, ci).0.None?;
    var plan := Plan(8, ["neutral"]);
    assert PlanDialogueStructure(EmotionGraph, "neutral", "medium") == Ok(plan);
    ShortProgressionRaises(plan, Dicts.Keys(info), replies);
    assert WriteDialogueExchange(EmotionGraph, voices, participants, "对话主题", "对话背景", ci, "neutral", "medium", replies).0
      == Raise(IndexError);
  }

  /** When a default participant is neither cached nor analysable against
      the given `character_info`, the voice analysis raises first. */
  lemma DefaultSpeakersUnready(voices: Voices, info: Json.Value, replies: seq<string>)
    requires |replies| >= 15
    requires !VoiceReady(voices, info, "角色1") || !VoiceReady(voices, info, "角色2")
    ensures Execute(voices, DialogueParams(Some("exchange"), None, None, None, Some(info), None, None, None), replies).0
      == Raise(AttributeError)
  {
    var participants := ["角色1", "角色2"];
    assert !VoiceReady(voices, info, participants[0]) || !VoiceReady(voices, info, participants[1]);
    assert AnalyzeVoices(voices, participants, info).0.Some?;
  }
}
