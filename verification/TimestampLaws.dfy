// What holds in every run of the timestamp manager, however its producer and
// its event processor interleave.
module TimestampLaws {
  import opened Wrappers
  import opened Timestamps

  // ------------------------------------------------------------- the tree

  // The steps 0, ..., m - 1 are in the table; each of them has an older parent,
  // if any, which its parent id agrees with, and its substeps are its children.
  predicate IsNode(nodes: map<int, TimeStamp>, id: int)
    requires id in nodes
  {
    var n := nodes[id];
    && '/' !in n.name
    && (if n.parent.Some? then 0 <= n.parent.value < id && n.parentID == n.parent.value else n.parentID == -1)
    && forall name :: name in n.subSteps ==> IsChild(nodes, id, name, n.subSteps[name])
  }

  predicate IsChild(nodes: map<int, TimeStamp>, id: int, name: string, child: int) {
    child in nodes && nodes[child].parent == Some(id) && nodes[child].name == name
  }

  ghost predicate IsTree(t: Tree, m: int) {
    && m >= 0
    && (forall id :: id in t.nodes <==> 0 <= id < m)
    && (forall id :: id in t.nodes ==> IsNode(t.nodes, id))
    && (t.lastVisited.Some? ==> t.lastVisited.value in t.nodes)
    && (t.root.Some? ==> t.root.value in t.nodes && t.nodes[t.root.value].parent.None?)
  }

  // An event that the producer can submit after m starts.
  predicate EventFits(e: Event, m: int) {
    match e
    case Start(id, name, parent, _) => id == m && '/' !in name && (parent.Some? ==> 0 <= parent.value < m)
    case Stop(ts, _) => ts.Some? ==> 0 <= ts.value < m
    case Pause(ts, _) => ts.Some? ==> 0 <= ts.value < m
    case Resume(ts, _) => ts.Some? ==> 0 <= ts.value < m
  }

  // It names no step and there is none to default to.
  predicate NamesNothing(t: Tree, e: Event) {
    match e
    case Start(_, _, _, _) => false
    case Stop(ts, _) => ts.None? && t.lastVisited.None?
    case Pause(ts, _) => ts.None? && t.lastVisited.None?
    case Resume(ts, _) => ts.None? && t.lastVisited.None?
  }

  // Only the times of the steps of the table change.
  ghost predicate OnlyTimes(nodes: map<int, TimeStamp>, nodes': map<int, TimeStamp>) {
    && nodes'.Keys == nodes.Keys
    && forall id :: id in nodes ==>
         nodes'[id] == nodes[id].(startTime := nodes'[id].startTime, endTime := nodes'[id].endTime)
  }

  lemma TimesKeepTree(t: Tree, t': Tree, m: int)
    requires IsTree(t, m) && OnlyTimes(t.nodes, t'.nodes) && t'.root == t.root
    requires t'.lastVisited.Some? ==> t'.lastVisited.value in t.nodes
    ensures IsTree(t', m)
  {
    forall id | id in t'.nodes ensures IsNode(t'.nodes, id) {
      assert IsNode(t.nodes, id);
    }
  }

  // A new step below an older one.
  lemma StartKeepsTree(t: Tree, m: int, e: Event, parent: int)
    requires IsTree(t, m) && e.Start? && EventFits(e, m) && 0 <= parent < m
    ensures var nodes := AddSubStep(t.nodes[m := NewTimeStamp(e)], parent, m);
      && (forall id :: id in nodes <==> 0 <= id < m + 1)
      && (forall id :: id in nodes ==> IsNode(nodes, id))
      && nodes[m].parent == Some(parent)
      && (forall id :: id in t.nodes ==> id in nodes && nodes[id].parent == t.nodes[id].parent && nodes[id].name == t.nodes[id].name)
  {
    var with := t.nodes[m := NewTimeStamp(e)];
    var nodes := AddSubStep(with, parent, m);
    forall id | id in nodes ensures IsNode(nodes, id) {
      if id != m {
        assert IsNode(t.nodes, id);
        forall name | name in nodes[id].subSteps ensures IsChild(nodes, id, name, nodes[id].subSteps[name]) {
          if id == parent && name == e.name {
            assert nodes[id].subSteps[name] == m;
          } else {
            assert IsChild(t.nodes, id, name, t.nodes[id].subSteps[name]);
          }
        }
      }
    }
  }

  lemma FirstKeepsTree(t: Tree, m: int, e: Event)
    requires IsTree(t, m) && e.Start? && EventFits(e, m) && e.parent.None?
    ensures IsTree(Tree(t.nodes[m := NewTimeStamp(e)], Some(m), Some(m)), m + 1)
  {
    var nodes := t.nodes[m := NewTimeStamp(e)];
    forall id | id in nodes ensures IsNode(nodes, id) {
      if id != m {
        assert IsNode(t.nodes, id);
        forall name | name in nodes[id].subSteps ensures IsChild(nodes, id, name, nodes[id].subSteps[name]) {
          assert IsChild(t.nodes, id, name, t.nodes[id].subSteps[name]);
        }
      }
    }
  }

  function StartsOf(e: Event): int {
    if e.Start? then 1 else 0
  }

  // Every event keeps the tree a tree, and none dereferences a nil pointer but
  // one that names nothing.
  lemma UpdateKeepsTree(t: Tree, m: int, e: Event)
    requires IsTree(t, m) && EventFits(e, m)
    ensures Update(t, e).Some? <==> !NamesNothing(t, e)
    ensures Update(t, e).Some? ==> IsTree(Update(t, e).value, m + StartsOf(e))
  {
    match e {
      case Start(id, _, None, _) =>
        FirstKeepsTree(t, m, e);
        if t.lastVisited.Some? {
          StartKeepsTree(t, m, e, t.lastVisited.value);
          hide AddSubStep, IsNode;
        }
      case Start(id, _, Some(p), _) =>
        StartKeepsTree(t, m, e, p);
        hide AddSubStep, IsNode;
      case Stop(ts, time) => CompletedKeepsTree(t, m, ts, time);
      case Pause(ts, time) => CompletedKeepsTree(t, m, ts, time);
      case Resume(ts, time) =>
        hide IsNode;
        if Update(t, e).Some? {
          TimesKeepTree(t, Update(t, e).value, m);
        }
    }
  }

  lemma CompletedKeepsTree(t: Tree, m: int, ts: Option<int>, time: int)
    requires IsTree(t, m) && (ts.Some? ==> 0 <= ts.value < m)
    ensures Completed(t, Subject(t, ts), time).Some? <==> !(ts.None? && t.lastVisited.None?)
    ensures Completed(t, Subject(t, ts), time).Some? ==> IsTree(Completed(t, Subject(t, ts), time).value, m)
  {
    var id := Subject(t, ts);
    if id.Some? {
      assert IsNode(t.nodes, id.value);
      hide IsNode;
      TimesKeepTree(t, Completed(t, id, time).value, m);
    }
  }

  // ----------------------------------------------------------- ancestors

  // Parents are in the table and older.
  predicate IsChained(nodes: map<int, TimeStamp>) {
    forall id :: id in nodes && nodes[id].parent.Some? ==> 0 <= nodes[id].parent.value < id && nodes[id].parent.value in nodes
  }

  lemma TreeIsChained(t: Tree, m: int)
    requires IsTree(t, m)
    ensures IsChained(t.nodes)
  {
    forall id | id in t.nodes && t.nodes[id].parent.Some?
      ensures 0 <= t.nodes[id].parent.value < id && t.nodes[id].parent.value in t.nodes
    {
      assert IsNode(t.nodes, id);
    }
  }

  // The full name of a step; the recursion ends because parents are older.
  function DisplayName(nodes: map<int, TimeStamp>, id: int): string
    requires IsChained(nodes) && id in nodes
    decreases id
  {
    if nodes[id].parent.None? then nodes[id].name
    else DisplayName(nodes, nodes[id].parent.value) + "/" + nodes[id].name
  }

  // A step, its parent, and so on.
  function Ancestors(nodes: map<int, TimeStamp>, id: int): seq<int>
    requires IsChained(nodes) && id in nodes
    decreases id
  {
    [id] + if nodes[id].parent.None? then [] else Ancestors(nodes, nodes[id].parent.value)
  }

  lemma {:induction false} AncestorsDescend(nodes: map<int, TimeStamp>, id: int)
    requires IsChained(nodes) && id in nodes
    ensures var a := Ancestors(nodes, id);
      && a != [] && a[0] == id
      && (forall k :: 0 <= k < |a| ==> a[k] in nodes && a[k] <= id)
      && (forall j, k :: 0 <= j < k < |a| ==> a[k] < a[j])
      && nodes[a[|a| - 1]].parent.None?
    decreases id
  {
    if nodes[id].parent.None? {
    } else {
      AncestorsDescend(nodes, nodes[id].parent.value);
    }
  }

  // No step of the table ever gets another parent or name.
  ghost predicate KeepsSteps(nodes: map<int, TimeStamp>, nodes': map<int, TimeStamp>) {
    forall id :: id in nodes ==> id in nodes' && nodes'[id].parent == nodes[id].parent && nodes'[id].name == nodes[id].name
  }

  lemma UpdateKeepsSteps(t: Tree, m: int, e: Event)
    requires IsTree(t, m) && EventFits(e, m) && Update(t, e).Some?
    ensures KeepsSteps(t.nodes, Update(t, e).value.nodes)
  {
    match e {
      case Start(id, _, None, _) =>
        if t.lastVisited.Some? {
          StartKeepsTree(t, m, e, t.lastVisited.value);
          hide AddSubStep, IsNode;
        }
      case Start(id, _, Some(p), _) =>
        StartKeepsTree(t, m, e, p);
        hide AddSubStep, IsNode;
      case Stop(_, _) =>
      case Pause(_, _) =>
      case Resume(_, _) =>
    }
  }

  lemma {:induction false} KeptStepsAreSame(nodes: map<int, TimeStamp>, nodes': map<int, TimeStamp>, id: int)
    requires IsChained(nodes) && IsChained(nodes') && KeepsSteps(nodes, nodes') && id in nodes
    ensures Ancestors(nodes', id) == Ancestors(nodes, id) && DisplayName(nodes', id) == DisplayName(nodes, id)
    decreases id
  {
    if nodes[id].parent.None? {
    } else {
      KeptStepsAreSame(nodes, nodes', nodes[id].parent.value);
    }
  }

  // --------------------------------------------------------------- paths

  // Follows the names from a step down.
  function FromPath(nodes: map<int, TimeStamp>, id: int, path: seq<string>): Option<int>
    requires id in nodes && forall i :: i in nodes ==> IsNode(nodes, i)
    decreases |path|
  {
    if path == [] then Some(id)
    else if path[0] in nodes[id].subSteps then
      assert IsNode(nodes, id) && IsChild(nodes, id, path[0], nodes[id].subSteps[path[0]]);
      FromPath(nodes, nodes[id].subSteps[path[0]], path[1..])
    else None
  }

  function Joined(path: seq<string>): string {
    if path == [] then "" else "/" + path[0] + Joined(path[1..])
  }

  // The step that a path leads to has that path for its display name.
  lemma {:induction false} PathIsDisplayName(t: Tree, m: int, id: int, path: seq<string>)
    requires IsTree(t, m) && id in t.nodes && FromPath(t.nodes, id, path).Some?
    ensures IsChained(t.nodes) && FromPath(t.nodes, id, path).value in t.nodes
    ensures DisplayName(t.nodes, FromPath(t.nodes, id, path).value) == DisplayName(t.nodes, id) + Joined(path)
    decreases |path|
  {
    TreeIsChained(t, m);
    if path == [] {
      assert DisplayName(t.nodes, id) + "" == DisplayName(t.nodes, id);
    } else {
      assert IsNode(t.nodes, id) && IsChild(t.nodes, id, path[0], t.nodes[id].subSteps[path[0]]);
      var child := t.nodes[id].subSteps[path[0]];
      PathIsDisplayName(t, m, child, path[1..]);
      var name := DisplayName(t.nodes, id);
      assert name + "/" + path[0] + Joined(path[1..]) == name + ("/" + path[0] + Joined(path[1..]));
    }
  }

  // ----------------------------------------------------- sequences of events

  function Starts(log: seq<Event>): int {
    if log == [] then 0 else Starts(log[..|log| - 1]) + StartsOf(log[|log| - 1])
  }

  // Events as a producer submits them.
  predicate LogFits(log: seq<Event>) {
    log == [] || (LogFits(log[..|log| - 1]) && EventFits(log[|log| - 1], Starts(log[..|log| - 1])))
  }

  // The tree once all these events are processed.
  function Fold(log: seq<Event>): Option<Tree> {
    if log == [] then Some(INITIAL.tree)
    else
      var t := Fold(log[..|log| - 1]);
      if t.None? then None else Update(t.value, log[|log| - 1])
  }

  lemma {:induction false} FoldIsTree(log: seq<Event>)
    requires LogFits(log) && Fold(log).Some?
    ensures IsTree(Fold(log).value, Starts(log))
  {
    hide IsTree, Update, EventFits;
    if log == [] {
      EmptyIsTree();
    } else {
      FoldIsTree(log[..|log| - 1]);
      UpdateKeepsTree(Fold(log[..|log| - 1]).value, Starts(log[..|log| - 1]), log[|log| - 1]);
    }
  }

  lemma EmptyIsTree()
    ensures IsTree(INITIAL.tree, 0)
  {
  }

  // ----------------------------------------------------------------- runs

  // The producer submits an event, or the processor takes one.
  datatype Action = Submits(request: Request) | Processes

  // The state after a run, or None if it cannot happen: the ids run out, a
  // request names a step that was never started, or the processor has nothing to
  // take or fails.
  function Exec(acts: seq<Action>): Option<State> {
    if acts == [] then Some(INITIAL)
    else
      var before := Exec(acts[..|acts| - 1]);
      if before.None? then None else Act(before.value, acts[|acts| - 1])
  }

  function Act(s: State, a: Action): Option<State> {
    match a
    case Submits(r) =>
      if KnowsStep(r, s.currentMaxID) && s.currentMaxID < MAX_ID then Some(Submit(s, r)) else None
    case Processes =>
      if s.queue == [] then None
      else
        var t := Update(s.tree, s.queue[0]);
        if t.None? then None else Some(State(t.value, s.currentMaxID, s.queue[1..]))
  }

  // The requests of the producer, in order.
  function Requests(acts: seq<Action>): seq<Request> {
    if acts == [] then []
    else Requests(acts[..|acts| - 1]) + if acts[|acts| - 1].Submits? then [acts[|acts| - 1].request] else []
  }

  // The events that they become.
  function Log(requests: seq<Request>): seq<Event> {
    if requests == [] then []
    else
      var r := requests[|requests| - 1];
      var log := Log(requests[..|requests| - 1]);
      log + if IsRefused(r) then [] else [EventOf(r, Starts(log))]
  }

  // How far the processor has come.
  predicate IsAt(s: State, log: seq<Event>) {
    && LogFits(log) && s.currentMaxID == Starts(log)
    && |s.queue| <= |log| && s.queue == log[|log| - |s.queue|..]
    && Fold(log[..|log| - |s.queue|]) == Some(s.tree)
  }

  // A run only depends on what the producer asks for, in which order, and on how
  // many of the events have been processed.
  lemma {:induction false} RunIsFold(acts: seq<Action>)
    requires Exec(acts).Some?
    ensures IsAt(Exec(acts).value, Log(Requests(acts)))
  {
    hide *;
    ExecStep(acts);
    RequestsStep(acts);
    if acts == [] {
      InitialIsAt();
    } else {
      var front, last := acts[..|acts| - 1], acts[|acts| - 1];
      RunIsFold(front);
      var s := Exec(front).value;
      var log := Log(Requests(front));
      match last {
        case Submits(r) =>
          LogStep(Requests(front), r);
          SubmitIsAt(s, log, r);
        case Processes =>
          ProcessIsAt(s, log);
      }
    }
  }

  lemma ExecStep(acts: seq<Action>)
    ensures Exec(acts) ==
      if acts == [] then Some(INITIAL)
      else if Exec(acts[..|acts| - 1]).None? then None
      else Act(Exec(acts[..|acts| - 1]).value, acts[|acts| - 1])
  {
    hide Act;
  }

  lemma RequestsStep(acts: seq<Action>)
    ensures acts == [] ==> Requests(acts) == []
    ensures acts != [] ==>
      var front, last := Requests(acts[..|acts| - 1]), acts[|acts| - 1];
      Requests(acts) == if last.Submits? then front + [last.request] else front
  {
  }

  lemma LogStep(requests: seq<Request>, r: Request)
    ensures Log(requests + [r]) == if IsRefused(r) then Log(requests) else Log(requests) + [EventOf(r, Starts(Log(requests)))]
  {
    hide IsRefused, EventOf, Starts;
    var all := requests + [r];
    assert all[..|all| - 1] == requests && all[|all| - 1] == r;
    assert Log(requests) + [] == Log(requests);
  }

  lemma InitialIsAt()
    ensures IsAt(INITIAL, Log([]))
  {
  }

  lemma SubmitIsAt(s: State, log: seq<Event>, r: Request)
    requires IsAt(s, log) && Act(s, Submits(r)).Some?
    ensures IsAt(Act(s, Submits(r)).value, if IsRefused(r) then log else log + [EventOf(r, Starts(log))])
  {
    hide Fold, LogFits, Starts;
    if !IsRefused(r) {
      var e := EventOf(r, Starts(log));
      var next := log + [e];
      var n := |log| - |s.queue|;
      LogNext(log, e);
      assert next[..n] == log[..n] && next[n..] == log[n..] + [e];
    }
  }

  lemma LogNext(log: seq<Event>, e: Event)
    requires LogFits(log) && EventFits(e, Starts(log))
    ensures LogFits(log + [e]) && Starts(log + [e]) == Starts(log) + StartsOf(e)
  {
    hide EventFits, StartsOf;
    var next := log + [e];
    assert next[..|next| - 1] == log && next[|next| - 1] == e;
  }

  lemma ProcessIsAt(s: State, log: seq<Event>)
    requires IsAt(s, log) && Act(s, Processes).Some?
    ensures IsAt(Act(s, Processes).value, log)
  {
    hide Update, LogFits, Starts;
    var n := |log| - |s.queue|;
    assert s.queue[0] == log[n];
    assert log[..n + 1][..n] == log[..n] && log[..n + 1][n] == log[n];
    assert s.queue[1..] == log[n + 1..];
  }

  // Two runs with the same requests that have processed as many events are in
  // the same state.
  lemma InterleavingsAgree(a: seq<Action>, b: seq<Action>)
    requires Exec(a).Some? && Exec(b).Some? && Requests(a) == Requests(b)
    requires |Exec(a).value.queue| == |Exec(b).value.queue|
    ensures Exec(a) == Exec(b)
  {
    hide Exec, Requests, Log, LogFits, Fold, Starts;
    RunIsFold(a);
    RunIsFold(b);
  }

  lemma {:induction false} LogFitsFront(log: seq<Event>, n: nat)
    requires LogFits(log) && n <= |log|
    ensures LogFits(log[..n]) && Starts(log[..n]) <= Starts(log)
    decreases |log|
  {
    hide EventFits, StartsOf;
    if n == |log| {
      assert log[..n] == log;
    } else {
      assert log[..|log| - 1][..n] == log[..n];
      LogFitsFront(log[..|log| - 1], n);
      StartsMore(log[|log| - 1]);
    }
  }

  lemma StartsMore(e: Event)
    ensures StartsOf(e) >= 0
  {
  }

  // In every run, at every moment: the table holds the steps whose start was
  // processed, their parents are in it and older, parent ids agree, and so every
  // display name is defined.
  lemma RunKeepsTree(acts: seq<Action>)
    requires Exec(acts).Some?
    ensures var s := Exec(acts).value;
      exists m :: IsTree(s.tree, m) && m <= s.currentMaxID
    ensures IsChained(Exec(acts).value.tree.nodes)
  {
    hide *;
    RunIsFold(acts);
    var s := Exec(acts).value;
    var log := Log(Requests(acts));
    AtIs(s, log);
    var n := |log| - |s.queue|;
    LogFitsFront(log, n);
    FoldIsTree(log[..n]);
    assert IsTree(s.tree, Starts(log[..n])) && Starts(log[..n]) <= s.currentMaxID;
    TreeIsChained(s.tree, Starts(log[..n]));
  }

  lemma AtIs(s: State, log: seq<Event>)
    requires IsAt(s, log)
    ensures LogFits(log) && s.currentMaxID == Starts(log) && |s.queue| <= |log| && s.queue == log[|log| - |s.queue|..]
    ensures Fold(log[..|log| - |s.queue|]) == Some(s.tree)
  {
    hide LogFits, Starts, Fold;
  }

  // Once a step is in the table, its display name never changes.
  lemma {:induction false} FoldKeepsSteps(log: seq<Event>, n: nat)
    requires LogFits(log) && n <= |log| && Fold(log).Some?
    ensures Fold(log[..n]).Some? && KeepsSteps(Fold(log[..n]).value.nodes, Fold(log).value.nodes)
    decreases |log|
  {
    hide Update, EventFits, IsTree;
    if n == |log| {
      assert log[..n] == log;
    } else {
      var front, last := log[..|log| - 1], log[|log| - 1];
      assert front[..n] == log[..n];
      FoldKeepsSteps(front, n);
      FoldIsTree(front);
      UpdateKeepsSteps(Fold(front).value, Starts(front), last);
    }
  }

  lemma DisplayNameStays(log: seq<Event>, n: nat, id: int)
    requires LogFits(log) && n <= |log| && Fold(log).Some?
    requires Fold(log[..n]).Some? && id in Fold(log[..n]).value.nodes
    ensures IsChained(Fold(log).value.nodes) && IsChained(Fold(log[..n]).value.nodes) && id in Fold(log).value.nodes
    ensures DisplayName(Fold(log).value.nodes, id) == DisplayName(Fold(log[..n]).value.nodes, id)
  {
    hide Fold, LogFits, IsTree, IsChained;
    FoldKeepsSteps(log, n);
    LogFitsFront(log, n);
    FoldIsTree(log);
    FoldIsTree(log[..n]);
    TreeIsChained(Fold(log).value, Starts(log));
    TreeIsChained(Fold(log[..n]).value, Starts(log[..n]));
    KeptStepsAreSame(Fold(log[..n]).value.nodes, Fold(log).value.nodes, id);
  }

  // --------------------------------------------------- where the manager is

  // The steps that the producer is in, the innermost first, and the parent of
  // each step that was started.
  datatype Trail = Trail(steps: seq<int>, parents: map<int, Option<int>>)

  predicate IsInnermost(trail: Trail, id: int) {
    trail.steps != [] && trail.steps[0] == id
  }

  function Entered(trail: Trail, id: int): Trail {
    trail.(steps := [id] + trail.steps)
  }

  // A start enters the new step, unless it goes below another step than the
  // innermost one. Stopping or pausing the innermost step leaves it, and resuming
  // a step of which it is the parent enters that one. All else stays where it is;
  // an event that names no step needs one to be in.
  function Follow(trail: Trail, e: Event): Option<Trail> {
    match e
    case Start(id, _, parent, _) =>
      var under := if parent.None? && trail.steps != [] then Some(trail.steps[0]) else parent;
      var known := trail.(parents := trail.parents[id := under]);
      Some(if parent.None? || IsInnermost(trail, parent.value) then Entered(known, id) else known)
    case Stop(ts, _) => Left(trail, ts)
    case Pause(ts, _) => Left(trail, ts)
    case Resume(None, _) => if trail.steps == [] then None else Some(trail)
    case Resume(Some(id), _) =>
      Some(if id in trail.parents && trail.parents[id].Some? && IsInnermost(trail, trail.parents[id].value) then Entered(trail, id) else trail)
  }

  function Left(trail: Trail, ts: Option<int>): Option<Trail> {
    if ts.None? && trail.steps == [] then None
    else Some(if ts.None? || IsInnermost(trail, ts.value) then trail.(steps := trail.steps[1..]) else trail)
  }

  function TrailOf(log: seq<Event>): Option<Trail> {
    if log == [] then Some(Trail([], map[]))
    else
      var trail := TrailOf(log[..|log| - 1]);
      if trail.None? then None else Follow(trail.value, log[|log| - 1])
  }

  // The last step visited, and its ancestors.
  function Visited(t: Tree): seq<int>
    requires IsChained(t.nodes) && (t.lastVisited.Some? ==> t.lastVisited.value in t.nodes)
  {
    if t.lastVisited.None? then [] else Ancestors(t.nodes, t.lastVisited.value)
  }

  lemma VisitedFirst(t: Tree)
    requires IsChained(t.nodes) && (t.lastVisited.Some? ==> t.lastVisited.value in t.nodes)
    ensures Visited(t) == [] <==> t.lastVisited.None?
    ensures t.lastVisited.Some? ==> Visited(t)[0] == t.lastVisited.value
    ensures t.lastVisited.Some? ==>
      var p := t.nodes[t.lastVisited.value].parent;
      Visited(t)[1..] == if p.None? then [] else Ancestors(t.nodes, p.value)
  {
  }

  predicate ParentsAgree(nodes: map<int, TimeStamp>, parents: map<int, Option<int>>) {
    && nodes.Keys == parents.Keys
    && forall id :: id in nodes ==> parents[id] == nodes[id].parent
  }

  // The tree says where the manager is.
  ghost predicate IsOnTrail(t: Tree, trail: Trail) {
    && IsChained(t.nodes) && (t.lastVisited.Some? ==> t.lastVisited.value in t.nodes)
    && Visited(t) == trail.steps
    && ParentsAgree(t.nodes, trail.parents)
  }

  // The step visited last stays, is left, or is entered.
  predicate MovesOn(t: Tree, t': Tree, trail: Trail, trail': Trail) {
    || (t'.lastVisited == t.lastVisited && trail'.steps == trail.steps)
    || (t.lastVisited.Some? && t.lastVisited.value in t.nodes && t'.lastVisited == t.nodes[t.lastVisited.value].parent
        && trail.steps != [] && trail'.steps == trail.steps[1..])
    || (t'.lastVisited.Some? && t'.lastVisited.value in t'.nodes && t'.nodes[t'.lastVisited.value].parent == t.lastVisited
        && trail'.steps == [t'.lastVisited.value] + trail.steps)
  }

  lemma OnTrailIs(t: Tree, trail: Trail)
    requires IsOnTrail(t, trail)
    ensures IsChained(t.nodes) && (t.lastVisited.Some? ==> t.lastVisited.value in t.nodes)
    ensures t.lastVisited == if trail.steps == [] then None else Some(trail.steps[0])
    ensures ParentsAgree(t.nodes, trail.parents)
  {
    VisitedFirst(t);
    hide IsChained;
  }

  lemma Moves(t: Tree, t': Tree, trail: Trail, trail': Trail)
    requires IsOnTrail(t, trail) && IsChained(t'.nodes) && KeepsSteps(t.nodes, t'.nodes)
    requires ParentsAgree(t'.nodes, trail'.parents) && MovesOn(t, t', trail, trail')
    requires t'.lastVisited.Some? ==> t'.lastVisited.value in t'.nodes
    ensures IsOnTrail(t', trail')
  {
    VisitedFirst(t);
    VisitedFirst(t');
    if t.lastVisited.Some? {
      var v := t.lastVisited.value;
      KeptStepsAreSame(t.nodes, t'.nodes, v);
      if t.nodes[v].parent.Some? {
        KeptStepsAreSame(t.nodes, t'.nodes, t.nodes[v].parent.value);
      }
    }
    hide IsChained, KeepsSteps, Ancestors;
  }

  lemma StartMoves(t: Tree, m: int, e: Event, trail: Trail)
    requires EventFits(e, m) && e.Start? && m !in t.nodes && (forall id :: id in t.nodes <==> 0 <= id < m)
    requires t.lastVisited.Some? ==> t.lastVisited.value in t.nodes
    requires t.lastVisited == if trail.steps == [] then None else Some(trail.steps[0])
    requires ParentsAgree(t.nodes, trail.parents)
    ensures Update(t, e).Some? && Follow(trail, e).Some?
    ensures MovesOn(t, Update(t, e).value, trail, Follow(trail, e).value)
    ensures ParentsAgree(Update(t, e).value.nodes, Follow(trail, e).value.parents)
  {
  }

  lemma StopMoves(t: Tree, m: int, e: Event, trail: Trail)
    requires EventFits(e, m) && (e.Stop? || e.Pause?) && forall id :: id in t.nodes <==> 0 <= id < m
    requires t.lastVisited.Some? ==> t.lastVisited.value in t.nodes
    requires t.lastVisited == if trail.steps == [] then None else Some(trail.steps[0])
    requires ParentsAgree(t.nodes, trail.parents)
    ensures Update(t, e).Some? <==> Follow(trail, e).Some?
    ensures Update(t, e).Some? ==>
      && MovesOn(t, Update(t, e).value, trail, Follow(trail, e).value)
      && ParentsAgree(Update(t, e).value.nodes, Follow(trail, e).value.parents)
  {
  }

  lemma ResumeMoves(t: Tree, m: int, e: Event, trail: Trail)
    requires EventFits(e, m) && e.Resume? && forall id :: id in t.nodes <==> 0 <= id < m
    requires forall id :: id in t.nodes ==> ParentIdAgrees(t.nodes, id)
    requires t.lastVisited.Some? ==> t.lastVisited.value in t.nodes
    requires t.lastVisited == if trail.steps == [] then None else Some(trail.steps[0])
    requires ParentsAgree(t.nodes, trail.parents)
    ensures Update(t, e).Some? <==> Follow(trail, e).Some?
    ensures Update(t, e).Some? ==>
      && MovesOn(t, Update(t, e).value, trail, Follow(trail, e).value)
      && ParentsAgree(Update(t, e).value.nodes, Follow(trail, e).value.parents)
  {
    if Update(t, e).Some? {
      assert ParentIdAgrees(t.nodes, if e.ts.None? then t.lastVisited.value else e.ts.value);
    }
  }

  predicate ParentIdAgrees(nodes: map<int, TimeStamp>, id: int)
    requires id in nodes
  {
    if nodes[id].parent.Some? then 0 <= nodes[id].parent.value < id && nodes[id].parentID == nodes[id].parent.value
    else nodes[id].parentID == -1
  }

  lemma TreeIs(t: Tree, m: int)
    requires IsTree(t, m)
    ensures m !in t.nodes && forall id :: id in t.nodes <==> 0 <= id < m
    ensures forall id :: id in t.nodes ==> ParentIdAgrees(t.nodes, id)
    ensures t.lastVisited.Some? ==> t.lastVisited.value in t.nodes
  {
    forall id | id in t.nodes ensures ParentIdAgrees(t.nodes, id) {
      assert IsNode(t.nodes, id);
    }
  }

  // One event, in the tree and on the trail.
  lemma Follows(t: Tree, m: int, e: Event, trail: Trail)
    requires IsTree(t, m) && EventFits(e, m) && IsOnTrail(t, trail)
    ensures Update(t, e).Some? <==> Follow(trail, e).Some?
    ensures Update(t, e).Some? ==> IsOnTrail(Update(t, e).value, Follow(trail, e).value)
  {
    hide *;
    TreeIs(t, m);
    OnTrailIs(t, trail);
    match e {
      case Start(_, _, _, _) => StartMoves(t, m, e, trail);
      case Stop(_, _) => StopMoves(t, m, e, trail);
      case Pause(_, _) => StopMoves(t, m, e, trail);
      case Resume(_, _) => ResumeMoves(t, m, e, trail);
    }
    if Update(t, e).Some? {
      var t' := Update(t, e).value;
      UpdateKeepsTree(t, m, e);
      TreeIsChained(t', m + StartsOf(e));
      TreeIs(t', m + StartsOf(e));
      UpdateKeepsSteps(t, m, e);
      Moves(t, t', trail, Follow(trail, e).value);
    }
  }

  // Whatever the events: the processor fails exactly when the trail does, and
  // until then the last step visited and its ancestors are the trail.
  lemma {:induction false} VisitedIsTrail(log: seq<Event>)
    requires LogFits(log)
    ensures Fold(log).Some? <==> TrailOf(log).Some?
    ensures Fold(log).Some? ==> IsTree(Fold(log).value, Starts(log)) && IsOnTrail(Fold(log).value, TrailOf(log).value)
  {
    hide *;
    LogUnfold(log);
    if log == [] {
      EmptyIsTree();
      TreeIsChained(INITIAL.tree, 0);
      NothingVisited();
    } else {
      var front, last := log[..|log| - 1], log[|log| - 1];
      VisitedIsTrail(front);
      if Fold(front).Some? {
        var t, trail := Fold(front).value, TrailOf(front).value;
        UpdateKeepsTree(t, Starts(front), last);
        Follows(t, Starts(front), last, trail);
      }
    }
  }

  lemma LogUnfold(log: seq<Event>)
    requires LogFits(log)
    ensures log == [] ==> Fold(log) == Some(INITIAL.tree) && Starts(log) == 0 && TrailOf(log) == Some(Trail([], map[]))
    ensures log != [] ==>
      var front, last := log[..|log| - 1], log[|log| - 1];
      && LogFits(front) && EventFits(last, Starts(front)) && Starts(log) == Starts(front) + StartsOf(last)
      && Fold(log) == (if Fold(front).None? then None else Update(Fold(front).value, last))
      && TrailOf(log) == if TrailOf(front).None? then None else Follow(TrailOf(front).value, last)
  {
    hide Update, Follow, EventFits, StartsOf;
  }

  lemma NothingVisited()
    requires IsChained(INITIAL.tree.nodes)
    ensures IsOnTrail(INITIAL.tree, Trail([], map[]))
  {
  }

  // The same for the state of any run: its events so far tell where it is.
  lemma RunVisitsTrail(acts: seq<Action>)
    requires Exec(acts).Some?
    ensures |Exec(acts).value.queue| <= |Log(Requests(acts))|
    ensures var s, log := Exec(acts).value, Log(Requests(acts));
      var trail := TrailOf(log[..|log| - |s.queue|]);
      trail.Some? && IsOnTrail(s.tree, trail.value)
  {
    hide *;
    RunIsFold(acts);
    var s, log := Exec(acts).value, Log(Requests(acts));
    AtIs(s, log);
    LogFitsFront(log, |log| - |s.queue|);
    VisitedIsTrail(log[..|log| - |s.queue|]);
  }
}
