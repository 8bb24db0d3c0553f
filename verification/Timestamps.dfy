// The event queue and the tree of the timestamp manager
// (toolkit/tools/internal/timestamp/timestamp_mgr.go and timestamp.go).
module Timestamps {
  import opened Wrappers

  // A step that was started. Steps refer to each other by their ids, which are
  // unique.
  datatype TimeStamp = TimeStamp(name: string, startTime: int, endTime: Option<int>, parentID: int, parent: Option<int>, subSteps: map<string, int>)

  // An event in the queue. A start carries the new step, with the parent it was
  // given; the others name a step or leave it open.
  datatype Event =
    | Start(id: int, name: string, parent: Option<int>, time: int)
    | Stop(ts: Option<int>, time: int)
    | Pause(ts: Option<int>, time: int)
    | Resume(ts: Option<int>, time: int)

  // What the read manager holds in memory.
  datatype Tree = Tree(nodes: map<int, TimeStamp>, root: Option<int>, lastVisited: Option<int>)

  const MAX_ID := 0x7fff_ffff_ffff_ffff
  const PATH_SEPARATOR := '/'

  // ---------------------------------------------------------- one event

  function NewTimeStamp(e: Event): TimeStamp
    requires e.Start?
  {
    TimeStamp(e.name, e.time, None, if e.parent.Some? then e.parent.value else -1, e.parent, map[])
  }

  // Makes child a substep of parent.
  function AddSubStep(nodes: map<int, TimeStamp>, parent: int, child: int): map<int, TimeStamp>
    requires parent in nodes && child in nodes
  {
    var p := nodes[parent].(subSteps := nodes[parent].subSteps[nodes[child].name := child]);
    var with := nodes[parent := p];
    with[child := with[child].(parent := Some(parent), parentID := parent)]
  }

  // The step that an event is about; none given is the last one visited.
  function Subject(t: Tree, ts: Option<int>): Option<int> {
    var id := if ts.None? then t.lastVisited else ts;
    if id.Some? && id.value in t.nodes then id else None
  }

  // The tree after an event, or None where the manager would dereference a nil
  // pointer.
  function Update(t: Tree, e: Event): Option<Tree> {
    match e
    case Start(id, _, None, _) =>
      var nodes := t.nodes[id := NewTimeStamp(e)];
      if t.lastVisited.None? then Some(Tree(nodes, Some(id), Some(id)))
      else if t.lastVisited.value !in nodes then None
      else Some(Tree(AddSubStep(nodes, t.lastVisited.value, id), t.root, Some(id)))
    case Start(id, _, Some(p), _) =>
      var nodes := t.nodes[id := NewTimeStamp(e)];
      if p !in nodes then None
      else Some(Tree(AddSubStep(nodes, p, id), t.root, if t.lastVisited == Some(p) then Some(id) else t.lastVisited))
    case Stop(ts, time) => Completed(t, Subject(t, ts), time)
    case Pause(ts, time) => Completed(t, Subject(t, ts), time)
    case Resume(ts, time) =>
      var id := Subject(t, ts);
      if id.None? then None
      else
        var n := t.nodes[id.value];
        Some(Tree(t.nodes[id.value := n.(startTime := time, endTime := None)], t.root,
          if t.lastVisited == Some(n.parentID) then id else t.lastVisited))
  }

  function Completed(t: Tree, id: Option<int>, time: int): Option<Tree> {
    if id.None? || id.value !in t.nodes then None
    else
      var n := t.nodes[id.value];
      Some(Tree(t.nodes[id.value := n.(endTime := Some(time))], t.root, if t.lastVisited == id then n.parent else t.lastVisited))
  }

  // The events that the producer submits: what it asks for, and when.
  datatype Request =
    | StartStep(name: string, parent: Option<int>, time: int)
    | StopStep(ts: Option<int>, time: int)
    | PauseStep(ts: Option<int>, time: int)
    | ResumeStep(ts: Option<int>, time: int)

  function EventOf(r: Request, id: int): Event {
    match r
    case StartStep(name, parent, time) => Start(id, name, parent, time)
    case StopStep(ts, time) => Stop(ts, time)
    case PauseStep(ts, time) => Pause(ts, time)
    case ResumeStep(ts, time) => Resume(ts, time)
  }

  // A name with a separator in it is refused.
  predicate IsRefused(r: Request) {
    r.StartStep? && PATH_SEPARATOR in r.name
  }

  // Steps are known to the producer by the ids they were given.
  predicate KnowsStep(r: Request, currentMaxID: int) {
    match r
    case StartStep(_, parent, _) => parent.Some? ==> 0 <= parent.value < currentMaxID
    case StopStep(ts, _) => ts.Some? ==> 0 <= ts.value < currentMaxID
    case PauseStep(ts, _) => ts.Some? ==> 0 <= ts.value < currentMaxID
    case ResumeStep(ts, _) => ts.Some? ==> 0 <= ts.value < currentMaxID
  }

  datatype State = State(tree: Tree, currentMaxID: int, queue: seq<Event>)

  // Submits an event for a request.
  function Submit(s: State, r: Request): State {
    if IsRefused(r) then s
    else s.(currentMaxID := if r.StartStep? then s.currentMaxID + 1 else s.currentMaxID,
            queue := s.queue + [EventOf(r, s.currentMaxID)])
  }

  // ------------------------------------------------------------ the manager

  class TimeStampManager {
    var eventQueue: seq<Event>
    var currentMaxID: int
    var root: Option<int>
    var nodes: map<int, TimeStamp>
    var lastVisited: Option<int>

    constructor ()
      ensures Contents() == INITIAL
    {
      eventQueue, currentMaxID, root, nodes, lastVisited := [], 0, None, map[], None;
    }

    function Contents(): State
      reads this
    {
      State(Tree(nodes, root, lastVisited), currentMaxID, eventQueue)
    }

    method NextID() returns (id: int)
      requires currentMaxID < MAX_ID
      modifies this`currentMaxID
      ensures id == old(currentMaxID) && currentMaxID == id + 1
    {
      id := currentMaxID;
      currentMaxID := currentMaxID + 1;
    }

    method SubmitEvent(e: Event)
      modifies this`eventQueue
      ensures eventQueue == old(eventQueue) + [e]
    {
      eventQueue := eventQueue + [e];
    }

    // The id of the new step, unless its name has a separator in it.
    method StartEvent(name: string, parentTS: Option<int>, now: int) returns (ts: Option<int>)
      requires currentMaxID < MAX_ID
      modifies this`currentMaxID, this`eventQueue
      ensures Contents() == Submit(old(Contents()), StartStep(name, parentTS, now))
      ensures ts == if '/' in name then None else Some(old(currentMaxID))
      ensures eventQueue == old(eventQueue) + if ts.None? then [] else [Start(ts.value, name, parentTS, now)]
    {
      if PATH_SEPARATOR in name {
        return None;
      }
      var id := NextID();
      SubmitEvent(Start(id, name, parentTS, now));
      return Some(id);
    }

    method StopEvent(ts: Option<int>, now: int)
      modifies this`eventQueue
      ensures Contents() == Submit(old(Contents()), StopStep(ts, now))
      ensures eventQueue == old(eventQueue) + [Stop(ts, now)]
    {
      SubmitEvent(Stop(ts, now));
    }

    method PauseEvent(ts: Option<int>, now: int)
      modifies this`eventQueue
      ensures Contents() == Submit(old(Contents()), PauseStep(ts, now))
      ensures eventQueue == old(eventQueue) + [Pause(ts, now)]
    {
      SubmitEvent(Pause(ts, now));
    }

    method ResumeEvent(ts: Option<int>, now: int)
      modifies this`eventQueue
      ensures Contents() == Submit(old(Contents()), ResumeStep(ts, now))
      ensures eventQueue == old(eventQueue) + [Resume(ts, now)]
    {
      SubmitEvent(Resume(ts, now));
    }

    // Processes the first event in the queue.
    method ProcessEvent()
      requires eventQueue != [] && Update(Contents().tree, eventQueue[0]).Some?
      modifies this
      ensures Contents() == State(Update(old(Contents()).tree, old(eventQueue)[0]).value, old(currentMaxID), old(eventQueue)[1..])
    {
      var event := eventQueue[0];
      eventQueue := eventQueue[1..];
      UpdateRead(event);
    }

    method UpdateRead(e: Event)
      requires Update(Contents().tree, e).Some?
      modifies this`nodes, this`root, this`lastVisited
      ensures Contents().tree == Update(old(Contents()).tree, e).value
    {
      match e {
        case Start(id, _, parent, _) =>
          nodes := nodes[id := NewTimeStamp(e)];
          if parent.None? {
            if lastVisited.None? {
              root := Some(id);
            } else {
              AddSubStepTo(lastVisited.value, id);
            }
            lastVisited := Some(id);
          } else {
            AddSubStepTo(parent.value, id);
            if lastVisited.Some? && lastVisited.value == parent.value {
              lastVisited := Some(id);
            }
          }
        case Stop(ts, time) =>
          Complete(if ts.None? then lastVisited.value else ts.value, time);
        case Pause(ts, time) =>
          Complete(if ts.None? then lastVisited.value else ts.value, time);
        case Resume(ts, time) =>
          var id := if ts.None? then lastVisited.value else ts.value;
          nodes := nodes[id := nodes[id].(startTime := time, endTime := None)];
          if lastVisited.Some? && lastVisited.value == nodes[id].parentID {
            lastVisited := Some(id);
          }
      }
    }

    method AddSubStepTo(parent: int, child: int)
      requires parent in nodes && child in nodes
      modifies this`nodes
      ensures nodes == AddSubStep(old(nodes), parent, child)
    {
      nodes := nodes[parent := nodes[parent].(subSteps := nodes[parent].subSteps[nodes[child].name := child])];
      nodes := nodes[child := nodes[child].(parent := Some(parent), parentID := parent)];
    }

    method Complete(id: int, time: int)
      requires id in nodes
      modifies this`nodes, this`lastVisited
      ensures Some(Tree(nodes, root, lastVisited)) == Completed(old(Contents().tree), Some(id), time)
    {
      nodes := nodes[id := nodes[id].(endTime := Some(time))];
      if lastVisited.Some? && lastVisited.value == id {
        lastVisited := nodes[id].parent;
      }
    }
  }

  const INITIAL := State(Tree(map[], None, None), 0, [])
}
