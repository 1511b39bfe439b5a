/**
 Merge pointers between accident events. Three services follow them to the canonical event, each
 with its own loop and its own failures; all three are proved against one walk, and the walk
 against reachability.
 */
module MergeGraph {
  import opened Optional

  type EventId = nat

  /** Every stored event with its merge pointer; an event is merged when it has one. */
  type Graph = map<EventId, Option<EventId>>

  predicate Unmerged(g: Graph, id: EventId) {
    id in g && g[id] == None
  }

  predicate Absorbed(g: Graph, id: EventId) {
    id in g && g[id] != None
  }

  // ---------- Reachability ----------

  /** The event n merge pointers away from this one, if there are that many. */
  function Hop(g: Graph, id: EventId, n: nat): Option<EventId> {
    if n == 0 then Some(id)
    else
      var before := Hop(g, id, n - 1);
      if before.Some? && before.value in g then g[before.value] else None
  }

  ghost predicate Reaches(g: Graph, id: EventId, end: EventId) {
    exists n: nat :: Hop(g, id, n) == Some(end)
  }

  /** The pointers lead on forever. */
  ghost predicate Endless(g: Graph, id: EventId) {
    forall n: nat :: Hop(g, id, n).Some?
  }

  ghost predicate Rooted(g: Graph, id: EventId) {
    exists root: EventId :: Unmerged(g, root) && Reaches(g, id, root)
  }

  /** Every event leads to an unmerged one. */
  ghost predicate Forest(g: Graph) {
    forall id {:trigger Rooted(g, id)} | id in g :: Rooted(g, id)
  }

  lemma {:induction false} HopThrough(g: Graph, id: EventId, m: nat, n: nat)
    requires Hop(g, id, m).Some?
    ensures Hop(g, id, m + n) == Hop(g, Hop(g, id, m).value, n)
  {
    if n == 0 {
    } else {
      HopThrough(g, id, m, n - 1);
    }
  }

  lemma {:induction false} HopBefore(g: Graph, id: EventId, m: nat, n: nat)
    requires m <= n && Hop(g, id, n).Some?
    ensures Hop(g, id, m).Some?
  {
    if m == n {
    } else {
      HopBefore(g, id, m, n - 1);
    }
  }

  /** A walk that returns to where it was never ends. */
  lemma {:induction false} LoopIsEndless(g: Graph, id: EventId, k: nat, n: nat)
    requires k > 0 && Hop(g, id, k) == Some(id)
    ensures Hop(g, id, n).Some?
  {
    if n <= k {
      HopBefore(g, id, n, k);
    } else {
      LoopIsEndless(g, id, k, n - k);
      HopThrough(g, id, k, n - k);
    }
  }

  /** Nothing follows an event that is unmerged or missing. */
  lemma {:induction false} NothingBeyondEnd(g: Graph, id: EventId, m: nat, n: nat)
    requires m < n && Hop(g, id, m).Some? && (var e := Hop(g, id, m).value; e in g ==> g[e] == None)
    ensures Hop(g, id, n) == None
  {
    if m + 1 == n {
    } else {
      NothingBeyondEnd(g, id, m, n - 1);
    }
  }

  lemma EndIsUnique(g: Graph, id: EventId, m: nat, n: nat)
    requires Hop(g, id, m).Some? && (var e := Hop(g, id, m).value; e in g ==> g[e] == None)
    requires Hop(g, id, n).Some? && (var e := Hop(g, id, n).value; e in g ==> g[e] == None)
    ensures m == n
  {
    if m < n {
      NothingBeyondEnd(g, id, m, n);
    } else if n < m {
      NothingBeyondEnd(g, id, n, m);
    }
  }

  // ---------- The walk ----------

  datatype Walked = Root(id: EventId) | Missing(id: EventId) | Cycle(id: EventId)

  /** Follow the pointers from `id`; `seen` holds the merged events already passed. */
  function Walk(g: Graph, id: EventId, seen: set<EventId>): Walked
    decreases g.Keys - seen
  {
    if id !in g then Missing(id)
    else if g[id] == None then Root(id)
    else if id in seen then Cycle(id)
    else Walk(g, g[id].value, seen + {id})
  }

  lemma RootIsItself(g: Graph, id: EventId)
    requires Unmerged(g, id)
    ensures Walk(g, id, {}) == Root(id)
  {
  }

  /** Every event passed leads to where the walk stands now. */
  ghost predicate Passed(g: Graph, id: EventId, seen: set<EventId>) {
    forall s | s in seen :: exists k: nat :: k > 0 && Hop(g, s, k) == Some(id)
  }

  lemma PassedOneMore(g: Graph, id: EventId, seen: set<EventId>)
    requires Passed(g, id, seen) && id in g && g[id].Some?
    ensures Passed(g, g[id].value, seen + {id})
  {
    forall s | s in seen + {id} ensures exists k: nat :: k > 0 && Hop(g, s, k) == Some(g[id].value) {
      if s == id {
        assert Hop(g, id, 0) == Some(id);
        assert Hop(g, id, 1) == g[id];
      } else {
        var k: nat :| k > 0 && Hop(g, s, k) == Some(id);
        assert Hop(g, s, k + 1) == g[id];
      }
    }
  }

  lemma {:induction false} WalkIsSound(g: Graph, id: EventId, seen: set<EventId>)
    requires Passed(g, id, seen)
    ensures match Walk(g, id, seen)
            case Root(r) => Unmerged(g, r) && Reaches(g, id, r)
            case Missing(m) => m !in g && Reaches(g, id, m)
            case Cycle(c) => Endless(g, id)
    decreases g.Keys - seen
  {
    if id !in g || g[id] == None {
      assert Hop(g, id, 0) == Some(id);
    } else if id in seen {
      var k: nat :| k > 0 && Hop(g, id, k) == Some(id);
      forall n: nat ensures Hop(g, id, n).Some? {
        LoopIsEndless(g, id, k, n);
      }
    } else {
      PassedOneMore(g, id, seen);
      var next := g[id].value;
      WalkIsSound(g, next, seen + {id});
      assert Hop(g, id, 0) == Some(id);
      assert Hop(g, id, 1) == Some(next);
      var end := Walk(g, next, seen + {id});
      if end.Cycle? {
        forall n: nat ensures Hop(g, id, n).Some? {
          if n > 0 {
            HopThrough(g, id, 1, n - 1);
          }
        }
      } else {
        var n: nat :| Hop(g, next, n) == Some(end.id);
        HopThrough(g, id, 1, n);
        assert Hop(g, id, n + 1) == Some(end.id);
      }
    }
  }

  /** The walk finds exactly what reachability says: an unmerged event if and only if one can be
      reached, and it is then the only one; a missing event if and only if a dangling pointer can be;
      and a cycle if and only if the pointers never end. */
  lemma WalkIsReachability(g: Graph, id: EventId)
    ensures forall r :: Walk(g, id, {}) == Root(r) <==> Unmerged(g, r) && Reaches(g, id, r)
    ensures forall m :: Walk(g, id, {}) == Missing(m) <==> m !in g && Reaches(g, id, m)
    ensures Walk(g, id, {}).Cycle? <==> Endless(g, id)
  {
    WalkIsSound(g, id, {});
    var end := Walk(g, id, {});
    forall e | (e in g ==> g[e] == None) && Reaches(g, id, e) ensures !end.Cycle? && end.id == e {
      var n: nat :| Hop(g, id, n) == Some(e);
      assert Hop(g, id, n + 1) == None;
      assert !Endless(g, id);
      var m: nat :| Hop(g, id, m) == Some(end.id);
      EndIsUnique(g, id, n, m);
    }
    if !end.Cycle? {
      var m: nat :| Hop(g, id, m) == Some(end.id);
      assert Hop(g, id, m + 1) == None;
      assert !Endless(g, id);
    }
  }

  // ---------- Linking ----------

  lemma RootedIff(g: Graph, id: EventId)
    ensures Walk(g, id, {}).Root? <==> Rooted(g, id)
  {
    WalkIsReachability(g, id);
    WalkIsSound(g, id, {});
  }

  /** Pointing an unmerged event at another changes nothing but where walks to it end. */
  lemma {:induction false} LinkRedirects(g: Graph, a: EventId, b: EventId, id: EventId, seen: set<EventId>)
    requires Unmerged(g, a) && Unmerged(g, b) && a != b && a !in seen && b !in seen
    ensures Walk(g[a := Some(b)], id, seen) == if Walk(g, id, seen) == Root(a) then Root(b) else Walk(g, id, seen)
    decreases g.Keys - seen
  {
    var linked := g[a := Some(b)];
    assert linked.Keys == g.Keys;
    if id == a {
      assert Walk(linked, b, seen + {a}) == Root(b);
    } else if id in g && g[id].Some? && id !in seen {
      LinkRedirects(g, a, b, g[id].value, seen + {id});
    }
  }

  /** The conditional UPDATE alone, which looks only at the source, breaks the forest exactly when the
      target already leads to the source; hence the second check under the row locks. */
  lemma LinkKeepsForestIff(g: Graph, a: EventId, b: EventId)
    requires Forest(g) && Unmerged(g, a) && b in g
    ensures Forest(g[a := Some(b)]) <==> Walk(g, b, {}) != Root(a)
  {
    var linked := g[a := Some(b)];
    assert Rooted(g, b);
    RootedIff(g, b);
    var root := Walk(g, b, {}).id;
    WalkIsSound(g, b, {});
    if root == a {
      LinkLoops(g, a, b);
      EndlessIsNotRooted(linked, a);
    } else {
      forall id | id in linked ensures Rooted(linked, id) {
        assert Rooted(g, id);
        LinkUnder(g, a, b, root, id);
      }
    }
  }

  lemma EndlessIsNotRooted(g: Graph, id: EventId)
    requires Endless(g, id)
    ensures !Rooted(g, id)
  {
    RootedIff(g, id);
    WalkIsReachability(g, id);
  }

  /** Below a new link to an event with another root, a rooted event stays rooted. */
  lemma LinkUnder(g: Graph, a: EventId, b: EventId, root: EventId, id: EventId)
    requires Unmerged(g, a) && Unmerged(g, root) && Reaches(g, b, root) && root != a && Rooted(g, id)
    ensures Rooted(g[a := Some(b)], id)
  {
    var linked := g[a := Some(b)];
    var end: EventId :| Unmerged(g, end) && Reaches(g, id, end);
    var n: nat :| Hop(g, id, n) == Some(end);
    HopsSurviveLink(g, a, b, id, n);
    if end == a {
      var m: nat :| Hop(g, b, m) == Some(root);
      HopsSurviveLink(g, a, b, b, m);
      assert Hop(linked, id, n + 1) == Some(b);
      HopThrough(linked, id, n + 1, m);
      assert Reaches(linked, id, root) && Unmerged(linked, root);
    } else {
      assert Reaches(linked, id, end) && Unmerged(linked, end);
    }
  }

  lemma LinkLoops(g: Graph, a: EventId, b: EventId)
    requires Unmerged(g, a) && Reaches(g, b, a)
    ensures Endless(g[a := Some(b)], a)
  {
    var linked := g[a := Some(b)];
    var n: nat :| Hop(g, b, n) == Some(a);
    HopsSurviveLink(g, a, b, b, n);
    assert Hop(linked, a, 0) == Some(a);
    assert Hop(linked, a, 1) == Some(b);
    HopThrough(linked, a, 1, n);
    forall k: nat ensures Hop(linked, a, k).Some? {
      LoopIsEndless(linked, a, n + 1, k);
    }
  }

  lemma {:induction false} HopsSurviveLink(g: Graph, a: EventId, b: EventId, id: EventId, n: nat)
    requires Unmerged(g, a) && Hop(g, id, n).Some?
    ensures Hop(g[a := Some(b)], id, n) == Hop(g, id, n)
  {
    if n == 0 {
    } else {
      HopsSurviveLink(g, a, b, id, n - 1);
    }
  }

  // ---------- The three walkers ----------

  datatype Error =
    | EventNotFound(id: EventId)
    | EventAlreadyMerged(id: EventId)
    | SourceRecordEventMismatch(owner: EventId)
    | CannotMergeIntoSelf

  datatype Result<T> = Ok(value: T) | Err(error: Error)

  /** How the continuity and replay walkers report a walk. */
  function Report(end: Walked): Result<EventId> {
    match end
    case Root(id) => Ok(id)
    case Missing(id) => Err(EventNotFound(id))
    case Cycle(id) => Err(EventAlreadyMerged(id))
  }

  /** How event resolution reports one: a missing event is no error. */
  function ReportOrNone(end: Walked): Result<Option<EventId>> {
    match end
    case Root(id) => Ok(Some(id))
    case Missing(_) => Ok(None)
    case Cycle(id) => Err(EventAlreadyMerged(id))
  }

  class Events {
    var graph: Graph

    constructor ()
      ensures graph == map[]
    {
      graph := map[];
    }

    /** SourceRecordContinuityService._canonical_event_for. */
    method ContinuityEventFor(eventId: EventId) returns (r: Result<EventId>)
      ensures r == Report(Walk(graph, eventId, {}))
    {
      var seen: set<EventId> := {};
      var currentId := eventId;
      while true
        invariant Walk(graph, currentId, seen) == Walk(graph, eventId, {})
        decreases graph.Keys - seen
      {
        if currentId !in graph {
          return Err(EventNotFound(currentId));
        }
        if graph[currentId].None? {
          return Ok(currentId);
        }
        if currentId in seen {
          return Err(EventAlreadyMerged(currentId));
        }
        seen, currentId := seen + {currentId}, graph[currentId].value;
      }
    }

    /** EventResolutionService._canonical_event_for. */
    method ResolutionEventFor(eventId: EventId) returns (r: Result<Option<EventId>>)
      ensures r == ReportOrNone(Walk(graph, eventId, {}))
    {
      var seen: set<EventId> := {};
      var currentId := eventId;
      while true
        invariant Walk(graph, currentId, seen) == Walk(graph, eventId, {})
        decreases graph.Keys - seen
      {
        if currentId !in graph {
          return Ok(None);
        }
        if graph[currentId].None? {
          return Ok(Some(currentId));
        }
        if currentId in seen {
          return Err(EventAlreadyMerged(currentId));
        }
        seen, currentId := seen + {currentId}, graph[currentId].value;
      }
    }

    /** IngestionIdempotencyService._canonical_event_id; its cycle error names the event it began with. */
    method ReplayEventId(eventId: EventId) returns (r: Result<EventId>)
      ensures var end := Walk(graph, eventId, {});
              r == if end.Cycle? then Err(EventAlreadyMerged(eventId)) else Report(end)
    {
      var seen: set<EventId> := {};
      var currentId := eventId;
      while true
        invariant Walk(graph, currentId, seen) == Walk(graph, eventId, {})
        decreases graph.Keys - seen
      {
        if currentId !in graph {
          return Err(EventNotFound(currentId));
        }
        if graph[currentId].None? {
          return Ok(currentId);
        }
        if currentId in seen {
          return Err(EventAlreadyMerged(eventId));
        }
        seen, currentId := seen + {currentId}, graph[currentId].value;
      }
    }

    /** SourceRecordContinuityService.resolve: the prior owner's canonical event, which an explicitly
        given event must be. */
    method ContinuityResolve(priorEventId: Option<EventId>, explicitEvent: Option<EventId>)
      returns (r: Result<Option<EventId>>)
      ensures r == Continued(graph, priorEventId, explicitEvent)
    {
      if priorEventId.None? {
        return Ok(None);
      }
      var prior := ContinuityEventFor(priorEventId.value);
      if prior.Err? {
        return Err(prior.error);
      }
      if explicitEvent.Some? && explicitEvent.value != prior.value {
        return Err(SourceRecordEventMismatch(prior.value));
      }
      return Ok(Some(prior.value));
    }

    /** AccidentEventRepository.add of a new event. */
    method Create(id: EventId)
      requires id !in graph
      modifies this
      ensures graph == Grow(old(graph), Created(id))
    {
      graph := graph[id := None];
    }

    /** try_atomic_merge: a conditional UPDATE that looks at the source row only. */
    method TryAtomicMerge(source: EventId, target: EventId) returns (claimed: bool)
      modifies this
      ensures claimed == Unmerged(old(graph), source)
      ensures graph == if claimed then old(graph)[source := Some(target)] else old(graph)
    {
      claimed := source in graph && graph[source].None?;
      if claimed {
        graph := graph[source := Some(target)];
      }
    }

    /** The checks and the pointer update with which MergeDuplicateEvents.execute begins, under both row
        locks. What follows may still fail and take the pointer back. */
    method StartMerge(source: EventId, target: EventId) returns (error: Option<Error>)
      modifies this
      ensures graph == Grow(old(graph), Merged(source, target))
      ensures error.None? <==> source != target && Unmerged(old(graph), source) && Unmerged(old(graph), target)
      ensures error == StartError(old(graph), source, target)
    {
      if source == target {
        return Some(CannotMergeIntoSelf);
      }
      if source !in graph {
        return Some(EventNotFound(source));
      }
      if target !in graph {
        return Some(EventNotFound(target));
      }
      if graph[source].Some? {
        return Some(EventAlreadyMerged(source));
      }
      if graph[target].Some? {
        return Some(EventAlreadyMerged(target));
      }
      var claimed := TryAtomicMerge(source, target);
      if !claimed {
        return Some(EventAlreadyMerged(source));
      }
      return None;
    }
  }

  /** The first of the merge's checks that fails. */
  function StartError(g: Graph, source: EventId, target: EventId): Option<Error> {
    if source == target then Some(CannotMergeIntoSelf)
    else if source !in g then Some(EventNotFound(source))
    else if target !in g then Some(EventNotFound(target))
    else if g[source].Some? then Some(EventAlreadyMerged(source))
    else if g[target].Some? then Some(EventAlreadyMerged(target))
    else None
  }

  /** Which failure a merge begins with: one of the two events the same, missing or merged, the source looked at
      before the target, and both for being there before either for being merged. */
  lemma StartErrorIff(g: Graph, source: EventId, target: EventId)
    ensures StartError(g, source, target) == Some(CannotMergeIntoSelf) <==> source == target
    ensures forall e :: StartError(g, source, target) == Some(EventNotFound(e)) <==>
                        source != target && e !in g && (e == source || (e == target && source in g))
    ensures forall e :: StartError(g, source, target) == Some(EventAlreadyMerged(e)) <==>
                        source != target && source in g && target in g
                        && (e == source || (e == target && g[source] == None)) && g[e].Some?
    ensures StartError(g, source, target) == None <==> source != target && Unmerged(g, source) && Unmerged(g, target)
  {
  }

  /** Event resolution by reachability: the unmerged event a candidate leads to, none when it leads to a missing
      one, and a failure exactly when the pointers never end. */
  lemma ResolutionIsReachability(g: Graph, id: EventId)
    ensures forall e: EventId :: ReportOrNone(Walk(g, id, {})) == Ok(Some(e)) <==> Unmerged(g, e) && Reaches(g, id, e)
    ensures ReportOrNone(Walk(g, id, {})) == Ok(None) <==> exists m: EventId :: m !in g && Reaches(g, id, m)
    ensures ReportOrNone(Walk(g, id, {})).Err? <==> Endless(g, id)
  {
    WalkIsReachability(g, id);
    WalkIsSound(g, id, {});
  }

  function Continued(g: Graph, priorEventId: Option<EventId>, explicitEvent: Option<EventId>): Result<Option<EventId>> {
    if priorEventId == None then Ok(None)
    else match Report(Walk(g, priorEventId.value, {}))
         case Err(e) => Err(e)
         case Ok(owner) =>
           if explicitEvent.Some? && explicitEvent.value != owner then Err(SourceRecordEventMismatch(owner))
           else Ok(Some(owner))
  }

  /** Continuity by reachability: the record stays with the unmerged event its prior event leads to, unless
      the caller named another; it fails on a dangling pointer and on an endless chain, and no other way. */
  lemma ContinuityIsReachability(g: Graph, prior: EventId, explicitEvent: Option<EventId>)
    ensures Continued(g, None, explicitEvent) == Ok(None) != Continued(g, Some(prior), explicitEvent)
    ensures forall e: EventId :: Continued(g, Some(prior), explicitEvent) == Ok(Some(e)) <==>
                        Unmerged(g, e) && Reaches(g, prior, e) && (explicitEvent == None || explicitEvent == Some(e))
    ensures forall e: EventId :: Continued(g, Some(prior), explicitEvent) == Err(SourceRecordEventMismatch(e)) <==>
                        Unmerged(g, e) && Reaches(g, prior, e) && explicitEvent != None && explicitEvent != Some(e)
    ensures forall m: EventId :: Continued(g, Some(prior), explicitEvent) == Err(EventNotFound(m)) <==>
              m !in g && Reaches(g, prior, m)
    ensures (exists c: EventId :: Continued(g, Some(prior), explicitEvent) == Err(EventAlreadyMerged(c))) <==>
              Endless(g, prior)
  {
    WalkIsReachability(g, prior);
    WalkIsSound(g, prior, {});
    if Endless(g, prior) {
      assert Continued(g, Some(prior), explicitEvent) == Err(EventAlreadyMerged(Walk(g, prior, {}).id));
    }
  }

  // ---------- Runs ----------

  datatype Change = Created(id: EventId) | Merged(source: EventId, target: EventId)

  predicate Takes(g: Graph, c: Change) {
    match c
    case Created(id) => id !in g
    case Merged(a, b) => a != b && Unmerged(g, a) && Unmerged(g, b)
  }

  function Grow(g: Graph, c: Change): Graph {
    if !Takes(g, c) then g
    else match c
         case Created(id) => g[id := None]
         case Merged(a, b) => g[a := Some(b)]
  }

  function Grown(g: Graph, changes: seq<Change>): Graph {
    if changes == [] then g else Grow(Grown(g, changes[..|changes| - 1]), changes[|changes| - 1])
  }

  /** Where an event that was canonical before these changes has gone: each merge of the event it
      stands for moves it to that merge's target. */
  function Follow(g: Graph, root: EventId, changes: seq<Change>): EventId {
    if changes == [] then root
    else
      var before := changes[..|changes| - 1];
      var last, at := changes[|changes| - 1], Follow(g, root, before);
      if last.Merged? && Takes(Grown(g, before), last) && last.source == at then last.target else at
  }

  lemma {:induction false} CreateKeepsWalks(g: Graph, new_: EventId, id: EventId, seen: set<EventId>)
    requires new_ !in g && Walk(g, id, seen).Root?
    ensures Walk(g[new_ := None], id, seen) == Walk(g, id, seen)
    decreases g.Keys - seen
  {
    if g[id].Some? {
      CreateKeepsWalks(g, new_, g[id].value, seen + {id});
    }
  }

  lemma GrowKeepsRoots(g: Graph, c: Change, id: EventId, root: EventId)
    requires Walk(g, id, {}) == Root(root)
    ensures Walk(Grow(g, c), id, {}) == Root(if c.Merged? && Takes(g, c) && c.source == root then c.target else root)
  {
    if Takes(g, c) {
      match c
      case Created(new_) => CreateKeepsWalks(g, new_, id, {});
      case Merged(a, b) => LinkRedirects(g, a, b, id, {});
    }
  }

  /** Replay of a stored event id tracks any number of later merges: whatever happens to the graph,
      the walk from it ends at the event its old canonical event has been merged into. */
  lemma {:induction false} ReplayTracksMerges(g: Graph, changes: seq<Change>, id: EventId, root: EventId)
    requires Walk(g, id, {}) == Root(root)
    ensures Walk(Grown(g, changes), id, {}) == Root(Follow(g, root, changes))
    ensures Unmerged(Grown(g, changes), Follow(g, root, changes))
  {
    if changes == [] {
    } else {
      var n := |changes| - 1;
      ReplayTracksMerges(g, changes[..n], id, root);
      GrowKeepsRoots(Grown(g, changes[..n]), changes[n], id, Follow(g, root, changes[..n]));
    }
    WalkIsReachability(Grown(g, changes), id);
  }

  lemma GrowKeepsForest(g: Graph, c: Change)
    requires Forest(g)
    ensures Forest(Grow(g, c))
  {
    var grown := Grow(g, c);
    forall id | id in grown ensures Rooted(grown, id) {
      if id in g {
        assert Rooted(g, id);
        RootedIff(g, id);
        GrowKeepsRoots(g, c, id, Walk(g, id, {}).id);
      }
      RootedIff(grown, id);
    }
  }

  /** No run of event creations and merges makes a cycle or a dangling pointer. */
  lemma {:induction false} EveryRunIsForest(changes: seq<Change>)
    ensures Forest(Grown(map[], changes))
  {
    if changes == [] {
    } else {
      var n := |changes| - 1;
      EveryRunIsForest(changes[..n]);
      GrowKeepsForest(Grown(map[], changes[..n]), changes[n]);
    }
  }

  /** After any run of creations and merges, a record whose prior event exists stays with exactly one
      unmerged event, which only an explicit other event can contest. */
  lemma ContinuityAfterRuns(changes: seq<Change>, prior: EventId, explicitEvent: Option<EventId>)
    returns (owner: EventId)
    requires prior in Grown(map[], changes)
    ensures var g := Grown(map[], changes);
            Unmerged(g, owner) && Reaches(g, prior, owner)
            && Continued(g, Some(prior), explicitEvent)
               == if explicitEvent == None || explicitEvent == Some(owner) then Ok(Some(owner))
                  else Err(SourceRecordEventMismatch(owner))
  {
    hide Grown;
    var g := Grown(map[], changes);
    EveryRunIsForest(changes);
    assert Rooted(g, prior);
    owner :| Unmerged(g, owner) && Reaches(g, prior, owner);
    ContinuityIsReachability(g, prior, explicitEvent);
  }
}
