// What the log of the processed events says of each step: its name, its times
// and its substeps.
module TimestampTimes {
  import opened Wrappers
  import opened Timestamps
  import opened TimestampLaws

  // ------------------------------------------------------------------ the times

  // The step that event k is about: the one it names, or else the innermost one
  // that the events before it have led to.
  function StepOf(log: seq<Event>, k: nat): Option<int>
    requires k < |log|
  {
    match log[k]
    case Start(id, _, _, _) => Some(id)
    case Stop(ts, _) => if ts.Some? then ts else Innermost(log[..k])
    case Pause(ts, _) => if ts.Some? then ts else Innermost(log[..k])
    case Resume(ts, _) => if ts.Some? then ts else Innermost(log[..k])
  }

  function Innermost(log: seq<Event>): Option<int> {
    var trail := TrailOf(log);
    if trail.Some? && trail.value.steps != [] then Some(trail.value.steps[0]) else None
  }

  predicate Begins(log: seq<Event>, k: nat, id: int) {
    k < |log| && (log[k].Start? || log[k].Resume?) && StepOf(log, k) == Some(id)
  }

  predicate Ends(log: seq<Event>, k: nat, id: int) {
    k < |log| && (log[k].Stop? || log[k].Pause?) && StepOf(log, k) == Some(id)
  }

  predicate IsLastBegin(log: seq<Event>, k: nat, id: int) {
    Begins(log, k, id) && forall j :: k < j < |log| ==> !Begins(log, j, id)
  }

  predicate IsLastEnd(log: seq<Event>, k: nat, id: int) {
    Ends(log, k, id) && forall j :: k < j < |log| ==> !Ends(log, j, id)
  }

  // The time of the last stop or pause after event k, if there is one.
  ghost predicate EndsSince(log: seq<Event>, k: nat, id: int, end: Option<int>) {
    if end.None? then forall j :: k < j < |log| ==> !Ends(log, j, id)
    else exists j: nat :: k < j && IsLastEnd(log, j, id) && end.value == log[j].time
  }

  // A step starts at its last start or resume, and ends when it is stopped or
  // paused after that.
  ghost predicate TimesAre(log: seq<Event>, id: int, start: int, end: Option<int>) {
    exists k: nat :: IsLastBegin(log, k, id) && start == log[k].time && EndsSince(log, k, id, end)
  }

  // It has the name that it was started with.
  ghost predicate IsNamed(log: seq<Event>, id: int, name: string) {
    exists k: nat :: k < |log| && log[k].Start? && log[k].id == id && log[k].name == name
  }

  ghost predicate StepsAre(log: seq<Event>, nodes: map<int, TimeStamp>) {
    forall id :: id in nodes ==> TimesAre(log, id, nodes[id].startTime, nodes[id].endTime) && IsNamed(log, id, nodes[id].name)
  }

  // One event changes the times of one step.
  predicate OneStep(n: TimeStamp, n': TimeStamp, e: Event) {
    && n'.name == n.name
    && match e
       case Start(_, _, _, _) => false
       case Stop(_, time) => n'.startTime == n.startTime && n'.endTime == Some(time)
       case Pause(_, time) => n'.startTime == n.startTime && n'.endTime == Some(time)
       case Resume(_, time) => n'.startTime == time && n'.endTime == None
  }

  lemma StartTimes(t: Tree, m: int, e: Event)
    requires IsTree(t, m) && EventFits(e, m) && Update(t, e).Some? && e.Start?
    ensures var nodes := Update(t, e).value.nodes;
      && nodes.Keys == t.nodes.Keys + {e.id} && e.id !in t.nodes
      && nodes[e.id].name == e.name && nodes[e.id].startTime == e.time && nodes[e.id].endTime == None
      && forall id :: id in t.nodes ==> SameTimes(t.nodes[id], nodes[id])
  {
    hide IsNode;
    var nodes := Update(t, e).value.nodes;
    assert nodes.Keys == t.nodes.Keys + {e.id};
  }

  predicate SameTimes(n: TimeStamp, n': TimeStamp) {
    n'.name == n.name && n'.startTime == n.startTime && n'.endTime == n.endTime
  }

  lemma OtherTimes(t: Tree, e: Event, step: Option<int>)
    requires !e.Start? && Update(t, e).Some? && step == (if e.ts.Some? then e.ts else t.lastVisited)
    ensures var nodes := Update(t, e).value.nodes;
      && nodes.Keys == t.nodes.Keys && step.Some? && step.value in t.nodes
      && OneStep(t.nodes[step.value], nodes[step.value], e)
      && forall id :: id in t.nodes && id != step.value ==> nodes[id] == t.nodes[id]
  {
  }

  // An earlier event is about the same step in a longer log.
  lemma Earlier(log: seq<Event>, e: Event, k: nat, id: int)
    requires k < |log|
    ensures Begins(log + [e], k, id) == Begins(log, k, id) && Ends(log + [e], k, id) == Ends(log, k, id)
  {
    assert (log + [e])[..k] == log[..k];
  }

  lemma AllEarlier(log: seq<Event>, e: Event)
    ensures forall k: nat, id :: k < |log| ==> Begins(log + [e], k, id) == Begins(log, k, id)
    ensures forall k: nat, id :: k < |log| ==> Ends(log + [e], k, id) == Ends(log, k, id)
  {
    forall k: nat, id | k < |log| ensures Begins(log + [e], k, id) == Begins(log, k, id) {
      Earlier(log, e, k, id);
    }
    forall k: nat, id | k < |log| ensures Ends(log + [e], k, id) == Ends(log, k, id) {
      Earlier(log, e, k, id);
    }
  }

  // The last event is about the step it names, or the innermost one.
  lemma Latest(log: seq<Event>, e: Event, step: Option<int>)
    requires step == (if e.Start? then Some(e.id) else if e.ts.Some? then e.ts else Innermost(log))
    ensures forall id :: Begins(log + [e], |log|, id) <==> (e.Start? || e.Resume?) && step == Some(id)
    ensures forall id :: Ends(log + [e], |log|, id) <==> (e.Stop? || e.Pause?) && step == Some(id)
  {
    hide Innermost;
    assert (log + [e])[..|log|] == log && (log + [e])[|log|] == e;
  }

  lemma TimesOfBegin(log: seq<Event>, e: Event, id: int)
    requires Begins(log + [e], |log|, id)
    ensures TimesAre(log + [e], id, e.time, None)
  {
    assert IsLastBegin(log + [e], |log|, id);
  }

  lemma TimesOfEnd(log: seq<Event>, e: Event, id: int, start: int, end: Option<int>)
    requires Ends(log + [e], |log|, id) && TimesAre(log, id, start, end)
    ensures TimesAre(log + [e], id, start, Some(e.time))
  {
    AllEarlier(log, e);
    var k: nat :| IsLastBegin(log, k, id) && start == log[k].time && EndsSince(log, k, id, end);
    hide StepOf;
    assert IsLastBegin(log + [e], k, id);
    assert IsLastEnd(log + [e], |log|, id);
  }

  lemma TimesOfOther(log: seq<Event>, e: Event, id: int, start: int, end: Option<int>)
    requires !Begins(log + [e], |log|, id) && !Ends(log + [e], |log|, id) && TimesAre(log, id, start, end)
    ensures TimesAre(log + [e], id, start, end)
  {
    AllEarlier(log, e);
    var k: nat :| IsLastBegin(log, k, id) && start == log[k].time && EndsSince(log, k, id, end);
    hide Begins, Ends;
    LastStays(log, e, k, id);
    if end.Some? {
      var j: nat :| k < j && IsLastEnd(log, j, id) && end.value == log[j].time;
      LastEndStays(log, e, j, id);
    }
  }

  lemma LastStays(log: seq<Event>, e: Event, k: nat, id: int)
    requires !Begins(log + [e], |log|, id) && IsLastBegin(log, k, id)
    ensures k < |log| && (log + [e])[k] == log[k] && IsLastBegin(log + [e], k, id)
  {
    AllEarlier(log, e);
    hide StepOf;
  }

  lemma LastEndStays(log: seq<Event>, e: Event, k: nat, id: int)
    requires !Ends(log + [e], |log|, id) && IsLastEnd(log, k, id)
    ensures k < |log| && (log + [e])[k] == log[k] && IsLastEnd(log + [e], k, id)
  {
    AllEarlier(log, e);
    hide StepOf;
  }

  lemma NameStays(log: seq<Event>, e: Event, id: int, name: string)
    ensures IsNamed(log, id, name) ==> IsNamed(log + [e], id, name)
    ensures e.Start? && e.id == id && e.name == name ==> IsNamed(log + [e], id, name)
  {
    if IsNamed(log, id, name) {
      var k: nat :| k < |log| && log[k].Start? && log[k].id == id && log[k].name == name;
      assert (log + [e])[k] == log[k];
    }
    assert (log + [e])[|log|] == e;
  }

  lemma StartStep(t: Tree, m: int, log: seq<Event>, e: Event)
    requires IsTree(t, m) && EventFits(e, m) && Update(t, e).Some? && e.Start? && StepsAre(log, t.nodes)
    ensures StepsAre(log + [e], Update(t, e).value.nodes)
  {
    StartTimes(t, m, e);
    Latest(log, e, Some(e.id));
    var nodes := Update(t, e).value.nodes;
    hide TimesAre, IsNamed, Begins, Ends, Update, IsTree;
    forall id | id in nodes ensures TimesAre(log + [e], id, nodes[id].startTime, nodes[id].endTime) && IsNamed(log + [e], id, nodes[id].name) {
      NameStays(log, e, id, nodes[id].name);
      if id == e.id {
        TimesOfBegin(log, e, id);
      } else {
        TimesOfOther(log, e, id, nodes[id].startTime, nodes[id].endTime);
      }
    }
  }

  lemma OtherStep(t: Tree, log: seq<Event>, e: Event)
    requires !e.Start? && Update(t, e).Some? && StepsAre(log, t.nodes) && t.lastVisited == Innermost(log)
    ensures StepsAre(log + [e], Update(t, e).value.nodes)
  {
    var step := if e.ts.Some? then e.ts else t.lastVisited;
    OtherTimes(t, e, step);
    Latest(log, e, step);
    var nodes := Update(t, e).value.nodes;
    hide TimesAre, IsNamed, Begins, Ends, Update, Innermost;
    forall id | id in nodes ensures TimesAre(log + [e], id, nodes[id].startTime, nodes[id].endTime) && IsNamed(log + [e], id, nodes[id].name) {
      NameStays(log, e, id, nodes[id].name);
      if id != step.value {
        TimesOfOther(log, e, id, nodes[id].startTime, nodes[id].endTime);
      } else if e.Resume? {
        TimesOfBegin(log, e, id);
      } else {
        TimesOfEnd(log, e, id, t.nodes[id].startTime, t.nodes[id].endTime);
      }
    }
  }

  lemma InnermostIs(t: Tree, log: seq<Event>)
    requires TrailOf(log).Some? && IsOnTrail(t, TrailOf(log).value)
    ensures t.lastVisited == Innermost(log)
  {
    OnTrailIs(t, TrailOf(log).value);
  }

  // Whatever the events, the log tells the name and the times of every step.
  lemma {:induction false} StepsOfLog(log: seq<Event>)
    requires LogFits(log) && Fold(log).Some?
    ensures StepsAre(log, Fold(log).value.nodes)
  {
    hide *;
    LogUnfold(log);
    if log == [] {
      NoSteps(log);
    } else {
      var front, last := log[..|log| - 1], log[|log| - 1];
      StepsOfLog(front);
      FoldIsTree(front);
      VisitedIsTrail(front);
      var t := Fold(front).value;
      InnermostIs(t, front);
      assert log == front + [last];
      if last.Start? {
        StartStep(t, Starts(front), front, last);
      } else {
        OtherStep(t, front, last);
      }
    }
  }

  lemma NoSteps(log: seq<Event>)
    ensures StepsAre(log, INITIAL.tree.nodes)
  {
  }

  // --------------------------------------------------------------- the substeps

  // A child is in its parent's substeps, unless a later one has its name.
  ghost predicate HoldsChild(nodes: map<int, TimeStamp>, child: int)
    requires child in nodes
  {
    nodes[child].parent.Some? ==>
      var p := nodes[child].parent.value;
      p in nodes && nodes[child].name in nodes[p].subSteps && child <= nodes[p].subSteps[nodes[child].name]
  }

  ghost predicate HoldsChildren(t: Tree) {
    && (forall id :: id in t.nodes ==> HoldsChild(t.nodes, id))
    && (t.root.None? ==> t.nodes == map[])
    && (t.root.None? ==> t.lastVisited.None?)
    && (t.root.Some? ==> forall id :: id in t.nodes && t.nodes[id].parent.None? ==> id <= t.root.value)
  }

  lemma AddHolds(t: Tree, m: int, e: Event, parent: int)
    requires IsTree(t, m) && HoldsChildren(t) && e.Start? && EventFits(e, m) && 0 <= parent < m
    ensures var nodes := AddSubStep(t.nodes[m := NewTimeStamp(e)], parent, m);
      forall id :: id in nodes ==> HoldsChild(nodes, id) && (nodes[id].parent.None? ==> id in t.nodes && t.nodes[id].parent.None?)
  {
    var nodes := AddSubStep(t.nodes[m := NewTimeStamp(e)], parent, m);
    forall id | id in nodes ensures HoldsChild(nodes, id) && (nodes[id].parent.None? ==> id in t.nodes && t.nodes[id].parent.None?) {
      if id != m {
        assert HoldsChild(t.nodes, id);
        assert IsNode(t.nodes, id);
      }
    }
  }

  lemma UpdateHolds(t: Tree, m: int, e: Event)
    requires IsTree(t, m) && EventFits(e, m) && Update(t, e).Some? && HoldsChildren(t)
    ensures HoldsChildren(Update(t, e).value)
  {
    match e {
      case Start(id, _, None, _) =>
        if t.lastVisited.Some? {
          AddHolds(t, m, e, t.lastVisited.value);
          hide AddSubStep, IsNode, HoldsChild;
        } else {
          FirstHolds(t, m, e);
        }
      case Start(id, _, Some(p), _) =>
        AddHolds(t, m, e, p);
        hide AddSubStep, IsNode, HoldsChild;
      case Stop(_, _) => TimesHold(t, m, Update(t, e).value);
      case Pause(_, _) => TimesHold(t, m, Update(t, e).value);
      case Resume(_, _) => TimesHold(t, m, Update(t, e).value);
    }
  }

  lemma FirstHolds(t: Tree, m: int, e: Event)
    requires IsTree(t, m) && HoldsChildren(t) && e.Start? && EventFits(e, m) && e.parent.None?
    ensures HoldsChildren(Tree(t.nodes[m := NewTimeStamp(e)], Some(m), Some(m)))
  {
    var nodes := t.nodes[m := NewTimeStamp(e)];
    forall id | id in nodes ensures HoldsChild(nodes, id) {
      if id != m {
        assert HoldsChild(t.nodes, id);
        assert IsNode(t.nodes, id);
      }
    }
  }

  lemma TimesHold(t: Tree, m: int, t': Tree)
    requires IsTree(t, m) && HoldsChildren(t) && OnlyTimes(t.nodes, t'.nodes) && t'.root == t.root
    requires t.root.None? ==> t'.lastVisited.None?
    ensures HoldsChildren(t')
  {
    forall id | id in t'.nodes ensures HoldsChild(t'.nodes, id) {
      assert HoldsChild(t.nodes, id);
      assert IsNode(t.nodes, id);
    }
  }

  lemma {:induction false} FoldHolds(log: seq<Event>)
    requires LogFits(log) && Fold(log).Some?
    ensures HoldsChildren(Fold(log).value)
  {
    hide *;
    LogUnfold(log);
    if log == [] {
      NothingHeld();
    } else {
      var front := log[..|log| - 1];
      FoldHolds(front);
      FoldIsTree(front);
      UpdateHolds(Fold(front).value, Starts(front), log[|log| - 1]);
    }
  }

  lemma NothingHeld()
    ensures HoldsChildren(INITIAL.tree)
  {
  }

  ghost predicate IsNewestChild(nodes: map<int, TimeStamp>, id: int, name: string, child: int) {
    IsChild(nodes, id, name, child) && forall other :: IsChild(nodes, id, name, other) ==> other <= child
  }

  // The substeps of a step are its children, the newest for each name.
  lemma SubStepsOfLog(log: seq<Event>, id: int, name: string, child: int)
    requires LogFits(log) && Fold(log).Some? && id in Fold(log).value.nodes
    ensures var nodes := Fold(log).value.nodes;
      name in nodes[id].subSteps && nodes[id].subSteps[name] == child <==> IsNewestChild(nodes, id, name, child)
  {
    hide *;
    FoldIsTree(log);
    FoldHolds(log);
    SubStepsOfTree(Fold(log).value, Starts(log), id, name, child);
  }

  lemma SubStepsOfTree(t: Tree, m: int, id: int, name: string, child: int)
    requires IsTree(t, m) && HoldsChildren(t) && id in t.nodes
    ensures name in t.nodes[id].subSteps && t.nodes[id].subSteps[name] == child <==> IsNewestChild(t.nodes, id, name, child)
  {
    assert IsNode(t.nodes, id);
    forall other | IsChild(t.nodes, id, name, other) ensures name in t.nodes[id].subSteps && other <= t.nodes[id].subSteps[name] {
      assert HoldsChild(t.nodes, other);
    }
    if name in t.nodes[id].subSteps {
      assert IsChild(t.nodes, id, name, t.nodes[id].subSteps[name]);
    }
  }

  // The root is the newest step without a parent.
  lemma RootOfLog(log: seq<Event>)
    requires LogFits(log) && Fold(log).Some?
    ensures var t := Fold(log).value;
      && (t.root.None? <==> t.nodes == map[])
      && (t.root.Some? ==>
            && t.root.value in t.nodes && t.nodes[t.root.value].parent.None?
            && forall id :: id in t.nodes && t.nodes[id].parent.None? ==> id <= t.root.value)
  {
    hide Fold, LogFits, Starts, IsNode, HoldsChild;
    FoldIsTree(log);
    FoldHolds(log);
  }

  // A request becomes one event at the end of the log; a start gets the next
  // number for its id, and none is logged if there is a slash in the name.
  lemma LogMeans(requests: seq<Request>, r: Request)
    ensures Log(requests + [r]) == Log(requests) +
      match r
      case StartStep(name, parent, time) => if '/' in name then [] else [Start(Starts(Log(requests)), name, parent, time)]
      case StopStep(ts, time) => [Stop(ts, time)]
      case PauseStep(ts, time) => [Pause(ts, time)]
      case ResumeStep(ts, time) => [Resume(ts, time)]
  {
    LogStep(requests, r);
    hide Log, Starts;
  }

  // The same for every state of every run: the events processed so far tell.
  lemma RunSteps(acts: seq<Action>)
    requires Exec(acts).Some?
    ensures |Exec(acts).value.queue| <= |Log(Requests(acts))|
    ensures var s, log := Exec(acts).value, Log(Requests(acts));
      StepsAre(log[..|log| - |s.queue|], s.tree.nodes)
    ensures HoldsChildren(Exec(acts).value.tree)
  {
    hide *;
    RunIsFold(acts);
    var s, log := Exec(acts).value, Log(Requests(acts));
    AtIs(s, log);
    var n := |log| - |s.queue|;
    LogFitsFront(log, n);
    StepsOfLog(log[..n]);
    FoldHolds(log[..n]);
  }
}
