/**
 EventResolutionService: attach an anonymous submission to a known event, or create a new event and
 queue reviews against the events it may duplicate.
 */
module EventResolution {
  import opened Optional
  import opened MergeGraph
  import A = AliasCap
  import F = FirstOccurrences
  import I = IdentityIndex
  import M = EventMatching

  datatype ReviewStatus = Pending | Rejected | Merged | AutoMerged

  /** A duplicate review; its id is its position in the table, which is in creation order. */
  datatype Review = Review(eventA: EventId, eventB: EventId, status: ReviewStatus, score: real)

  predicate OfPair(r: Review, a: EventId, b: EventId) {
    (r.eventA == a && r.eventB == b) || (r.eventA == b && r.eventB == a)
  }

  /** The newest review of the pair, among the pending ones or among all. */
  function Newest(reviews: seq<Review>, a: EventId, b: EventId, pending: bool): (id: Option<nat>)
    ensures id.Some? ==>
              id.value < |reviews| && OfPair(reviews[id.value], a, b) && (pending ==> reviews[id.value].status == Pending)
    ensures id.None? <==>
              forall i | 0 <= i < |reviews| :: !(OfPair(reviews[i], a, b) && (pending ==> reviews[i].status == Pending))
    ensures id.Some? ==>
              forall i | id.value < i < |reviews| :: !(OfPair(reviews[i], a, b) && (pending ==> reviews[i].status == Pending))
  {
    if reviews == [] then None
    else
      var n := |reviews| - 1;
      if OfPair(reviews[n], a, b) && (pending ==> reviews[n].status == Pending) then Some(n)
      else Newest(reviews[..n], a, b, pending)
  }

  /** find_existing_pair: a pending review before a closed one, then the newest. */
  function Existing(reviews: seq<Review>, a: EventId, b: EventId): (id: Option<nat>)
    ensures id.Some? ==> id.value < |reviews| && OfPair(reviews[id.value], a, b)
    ensures id.None? <==> forall i | 0 <= i < |reviews| :: !OfPair(reviews[i], a, b)
  {
    I.Coalesce(Newest(reviews, a, b, true), Newest(reviews, a, b, false))
  }

  /** A closed review is found only if none of the pair is pending, and a newer one of the pair than the one found
      is closed beside a pending one. */
  lemma ExistingIsPendingThenNewest(reviews: seq<Review>, a: EventId, b: EventId, i: nat)
    requires i < |reviews| && OfPair(reviews[i], a, b)
    ensures var id := Existing(reviews, a, b);
            id.Some? && (reviews[i].status == Pending ==> reviews[id.value].status == Pending && i <= id.value)
            && (i > id.value ==> reviews[id.value].status == Pending && reviews[i].status != Pending)
  {
  }

  lemma NewestIgnoresOtherPairs(reviews: seq<Review>, r: Review, a: EventId, b: EventId)
    requires !OfPair(r, a, b)
    ensures Existing(reviews + [r], a, b) == Existing(reviews, a, b)
  {
    assert (reviews + [r])[..|reviews|] == reviews;
  }

  // ---------- Whom to review ----------

  /** The event a candidate stands for now; a candidate whose pointers dangle stands for itself. */
  function Canonical(g: Graph, id: EventId): EventId {
    match Walk(g, id, {})
    case Root(root) => root
    case _ => id
  }

  function Canonicals(g: Graph, ids: seq<EventId>): (r: seq<EventId>)
    ensures |r| == |ids|
  {
    seq(|ids|, i requires 0 <= i < |ids| => Canonical(g, ids[i]))
  }

  function Take(xs: seq<EventId>, n: nat): (r: seq<EventId>)
    ensures |r| == if |xs| < n then |xs| else n
  {
    if |xs| < n then xs else xs[..n]
  }

  /** The events to review: the first `limit` distinct canonical candidates in candidate order, the new
      event not among them. */
  function Reviewed(g: Graph, ids: seq<EventId>, newEvent: EventId, limit: nat): seq<EventId> {
    Take(F.Except(F.Distinct(Canonicals(g, ids)), newEvent), limit)
  }

  lemma WantedOneMore(all: seq<EventId>, c: EventId, newEvent: EventId)
    ensures F.Except(F.Distinct(all + [c]), newEvent)
            == if c == newEvent || c in F.Except(F.Distinct(all), newEvent) then F.Except(F.Distinct(all), newEvent)
               else F.Except(F.Distinct(all), newEvent) + [c]
  {
    F.DistinctPush(all, c);
    var kept := F.Distinct(all);
    if c !in kept {
      assert (kept + [c])[..|kept|] == kept;
    }
  }

  function Considered(soFar: seq<EventId>, candidate: EventId, newEvent: EventId, limit: nat): seq<EventId> {
    if candidate == newEvent || candidate in soFar || |soFar| >= limit then soFar else soFar + [candidate]
  }

  lemma ReviewedOneMore(g: Graph, ids: seq<EventId>, i: nat, newEvent: EventId, limit: nat)
    requires i < |ids|
    ensures Reviewed(g, ids[..i + 1], newEvent, limit)
            == Considered(Reviewed(g, ids[..i], newEvent, limit), Canonical(g, ids[i]), newEvent, limit)
  {
    var c := Canonical(g, ids[i]);
    assert Canonicals(g, ids[..i + 1]) == Canonicals(g, ids[..i]) + [c];
    WantedOneMore(Canonicals(g, ids[..i]), c, newEvent);
    TakeOneMore(F.Except(F.Distinct(Canonicals(g, ids[..i])), newEvent), c, newEvent, limit);
  }

  lemma TakeOneMore(wanted: seq<EventId>, c: EventId, newEvent: EventId, limit: nat)
    ensures Take(if c == newEvent || c in wanted then wanted else wanted + [c], limit)
            == Considered(Take(wanted, limit), c, newEvent, limit)
  {
  }

  lemma ReviewedNoRepeats(g: Graph, ids: seq<EventId>, newEvent: EventId, limit: nat)
    ensures F.NoRepeats(Reviewed(g, ids, newEvent, limit)) && newEvent !in Reviewed(g, ids, newEvent, limit)
  {
    F.DistinctByFirstPosition(Canonicals(g, ids));
    F.ExceptNoRepeats(F.Distinct(Canonicals(g, ids)), newEvent);
    var wanted, r := F.Except(F.Distinct(Canonicals(g, ids)), newEvent), Reviewed(g, ids, newEvent, limit);
    forall i | 0 <= i < |r| ensures r[i] == wanted[i] && r[i] != newEvent {
      assert wanted[i] in wanted;
    }
  }

  /** Whom a submission is reviewed against: the unmerged events its candidates lead to, other than the new event,
      each once, at most `limit` of them and fewer only if there are no more. */
  lemma ReviewedMeans(g: Graph, ids: seq<EventId>, newEvent: EventId, limit: nat)
    ensures var r := Reviewed(g, ids, newEvent, limit);
            |r| <= limit && F.NoRepeats(r) && newEvent !in r
            && (forall e | e in r :: exists i :: 0 <= i < |ids| && Canonical(g, ids[i]) == e)
            && (|r| < limit ==> forall i | 0 <= i < |ids| && Canonical(g, ids[i]) != newEvent :: Canonical(g, ids[i]) in r)
  {
    ReviewedNoRepeats(g, ids, newEvent, limit);
    var r := Reviewed(g, ids, newEvent, limit);
    var canonicals := Canonicals(g, ids);
    var wanted := F.Except(F.Distinct(canonicals), newEvent);
    forall e | e in r ensures exists i :: 0 <= i < |ids| && Canonical(g, ids[i]) == e {
      assert e in canonicals;
      var i :| 0 <= i < |canonicals| && canonicals[i] == e;
    }
    forall i | 0 <= i < |ids| && Canonical(g, ids[i]) != newEvent ensures Canonical(g, ids[i]) in wanted {
      assert canonicals[i] in canonicals;
    }
  }

  // ---------- The service ----------

  lemma {:induction false} IdsAreBounded(ids: set<EventId>) returns (bound: EventId)
    ensures forall id | id in ids :: id < bound
  {
    if ids == {} {
      bound := 0;
    } else {
      var id: EventId :| id in ids;
      var rest := IdsAreBounded(ids - {id});
      bound := if id < rest then rest else id + 1;
      forall other | other in ids ensures other < bound {
        assert other == id || other in ids - {id};
      }
    }
  }

  lemma FreeId(ids: set<EventId>)
    ensures exists id: EventId :: id !in ids
  {
    var bound := IdsAreBounded(ids);
    assert bound !in ids;
  }

  datatype AttachedBy = NewEvent | IdentityMatch | DuplicateReview

  datatype Resolution = Resolution(event: EventId, reviews: seq<nat>, created: bool, attachedBy: AttachedBy)

  datatype Failure = LimitNotPositive | BrokenMergeChain(error: MergeGraph.Error)

  datatype Outcome = Resolved(resolution: Resolution) | Failed(failure: Failure)

  /** The distinct hits among the date hits and the first registration hits. */
  function Joined(dateHits: seq<EventId>, registrationHits: seq<EventId>, i: nat): seq<EventId>
    requires i <= |registrationHits|
  {
    F.Distinct(dateHits + registrationHits[..i])
  }

  lemma JoinedAtFirst(dateHits: seq<EventId>, registrationHits: seq<EventId>)
    requires F.NoRepeats(dateHits)
    ensures Joined(dateHits, registrationHits, 0) == dateHits
  {
    assert dateHits + registrationHits[..0] == dateHits;
    F.DistinctOfNoRepeats(dateHits);
  }

  lemma JoinedNext(dateHits: seq<EventId>, registrationHits: seq<EventId>, i: nat)
    requires i < |registrationHits|
    ensures var before, hit := Joined(dateHits, registrationHits, i), registrationHits[i];
            Joined(dateHits, registrationHits, i + 1) == if hit in before then before else before + [hit]
  {
    hide F.Distinct;
    assert dateHits + registrationHits[..i + 1] == dateHits + registrationHits[..i] + [registrationHits[i]];
    F.DistinctPush(dateHits + registrationHits[..i], registrationHits[i]);
  }

  class EventResolutionService {
    const events: Events
    var index: map<EventId, I.Entry>
    var reviews: seq<Review>

    constructor (events: Events)
      ensures this.events == events && index == map[] && reviews == []
    {
      this.events := events;
      index, reviews := map[], [];
    }

    /** The index rows to score: the date window, then the registration hits not already there. */
    method Candidates(dateHits: seq<EventId>, registrationHits: seq<EventId>) returns (r: seq<EventId>)
      requires F.NoRepeats(dateHits)
      ensures r == F.Distinct(dateHits + registrationHits)
    {
      r := dateHits;
      JoinedAtFirst(dateHits, registrationHits);
      for i := 0 to |registrationHits|
        invariant r == Joined(dateHits, registrationHits, i)
      {
        JoinedNext(dateHits, registrationHits, i);
        r := AddHit(r, registrationHits[i]);
      }
      assert registrationHits[..|registrationHits|] == registrationHits;
    }

    method AddHit(hits: seq<EventId>, hit: EventId) returns (r: seq<EventId>)
      ensures r == if hit in hits then hits else hits + [hit]
    {
      r := hits;
      if hit !in hits {
        r := r + [hit];
      }
    }

    /** The canonicalising loop of the review branch. */
    method CanonicalCandidates(ids: seq<EventId>, newEvent: EventId, limit: nat) returns (r: Result<seq<EventId>>)
      ensures r.Err? <==> exists i :: 0 <= i < |ids| && Walk(events.graph, ids[i], {}).Cycle?
      ensures r.Ok? ==> r.value == Reviewed(events.graph, ids, newEvent, limit)
    {
      var canonicalIds: seq<EventId> := [];
      for i := 0 to |ids|
        invariant canonicalIds == Reviewed(events.graph, ids[..i], newEvent, limit)
        invariant forall j | 0 <= j < i :: !Walk(events.graph, ids[j], {}).Cycle?
      {
        var candidate := CanonicalCandidate(ids[i]);
        if candidate.Err? {
          return Err(candidate.error);
        }
        ReviewedOneMore(events.graph, ids, i, newEvent, limit);
        canonicalIds := Consider(canonicalIds, candidate.value, newEvent, limit);
      }
      assert ids[..|ids|] == ids;
      return Ok(canonicalIds);
    }

    /** The tests of that loop: the new event and repeats are skipped, and so is what is over the limit. */
    method Consider(canonicalIds: seq<EventId>, candidate: EventId, newEvent: EventId, limit: nat)
      returns (r: seq<EventId>)
      ensures r == Considered(canonicalIds, candidate, newEvent, limit)
    {
      if candidate == newEvent || candidate in canonicalIds {
        return canonicalIds;
      }
      if |canonicalIds| >= limit {
        return canonicalIds;
      }
      return canonicalIds + [candidate];
    }

    /** The canonical event of one candidate, or the candidate itself when that is missing. */
    method CanonicalCandidate(id: EventId) returns (r: Result<EventId>)
      ensures r.Err? <==> Walk(events.graph, id, {}).Cycle?
      ensures r.Ok? ==> r.value == Canonical(events.graph, id)
    {
      var canonical := events.ResolutionEventFor(id);
      if canonical.Err? {
        return Err(canonical.error);
      }
      return Ok(if canonical.value.Some? then canonical.value.value else id);
    }

    /** duplicate_reviews.add: a pair that is already pending keeps its row. */
    method AddReview(review: Review) returns (id: Option<nat>)
      requires review.status == Pending
      modifies this`reviews
      ensures var pending := Newest(old(reviews), review.eventA, review.eventB, true);
              if pending == None then id == Some(|old(reviews)|) && reviews == old(reviews) + [review]
              else id == pending && reviews == old(reviews)
    {
      id := Newest(reviews, review.eventA, review.eventB, true);
      if id.None? {
        id := Some(|reviews|);
        reviews := reviews + [review];
      }
    }

    /** The review loop: one review for each candidate against the new event. A pair reviewed before
        keeps its review; every other gets a new pending one; nothing else is written. */
    method QueueReviews(candidates: seq<EventId>, newEvent: EventId, score: real) returns (ids: seq<nat>)
      requires F.NoRepeats(candidates) && newEvent !in candidates
      modifies this`reviews
      ensures old(reviews) <= reviews && |ids| == |candidates|
      ensures forall i | 0 <= i < |ids| :: Queued(old(reviews), reviews, candidates[i], newEvent, score, ids[i])
      ensures forall k | |old(reviews)| <= k < |reviews| :: k in ids
      ensures F.NoRepeats(ids)
    {
      ids := [];
      ghost var before := reviews;
      for i := 0 to |candidates|
        invariant before <= reviews && |ids| == i
        invariant forall j | 0 <= j < i :: Queued(before, reviews, candidates[j], newEvent, score, ids[j])
        invariant forall j | i <= j < |candidates| ::
                    Existing(reviews, candidates[j], newEvent) == Existing(before, candidates[j], newEvent)
        invariant forall k | |before| <= k < |reviews| :: k in ids
      {
        ghost var soFar, here := reviews, ids;
        var existing := Existing(reviews, candidates[i], newEvent);
        if existing.Some? {
          ids := ids + [existing.value];
        } else {
          var review := Review(candidates[i], newEvent, Pending, score);
          var stored := AddReview(review);
          ids := ids + [stored.value];
          forall j | i < j < |candidates| ensures !OfPair(review, candidates[j], newEvent) {
            assert candidates[i] != candidates[j];
          }
          forall j | i < j < |candidates|
            ensures Existing(reviews, candidates[j], newEvent) == Existing(before, candidates[j], newEvent)
          {
            NewestIgnoresOtherPairs(soFar, review, candidates[j], newEvent);
          }
          forall j | 0 <= j < i ensures Queued(before, reviews, candidates[j], newEvent, score, ids[j]) {
            assert Queued(before, soFar, candidates[j], newEvent, score, here[j]);
          }
          forall k | |before| <= k < |reviews| ensures k in ids {
            if k < |soFar| {
              assert k in here;
            } else {
              assert ids[i] == k;
            }
          }
        }
      }
      DifferentPairsDifferentReviews(reviews, candidates, newEvent, ids);
    }

    function Row(id: EventId): Option<I.Entry>
      reads this
    {
      if id in index then Some(index[id]) else None
    }

    /** A new event and its identity row, written before anything else can fail. */
    method CreateEvent(entry: I.Entry) returns (event: EventId)
      modifies this`index, events
      ensures event !in old(events.graph) && events.graph == Grow(old(events.graph), Created(event))
      ensures index == old(index)[event := I.Upserted(old(Row(event)), I.Validated(entry))]
    {
      FreeId(events.graph.Keys);
      event :| event !in events.graph;
      events.Create(event);
      index := index[event := I.Upserted(Row(event), I.Validated(entry))];
    }

    /** The attach branch: the candidate's canonical event, if it still has one, and its row grown by
        the entry, as one of its own ingestions or as a merged alias's. */
    method TryAttach(candidate: EventId, entry: I.Entry) returns (r: Result<Option<EventId>>)
      modifies this`index
      ensures r == ReportOrNone(Walk(events.graph, candidate, {}))
      ensures index == if r.Ok? && r.value.Some?
                       then old(index)[r.value.value := AttachedRow(old(Row(r.value.value)), candidate, r.value.value, entry)]
                       else old(index)
    {
      r := events.ResolutionEventFor(candidate);
      if r.Ok? && r.value.Some? {
        var existing := r.value.value;
        if candidate == existing {
          index := index[existing := I.Upserted(Row(existing), I.Validated(entry))];
        } else {
          index := index[existing := I.Enriched(Row(existing), I.Validated(entry))];
        }
      }
    }

    /** resolve_with_reviews. The hits are the rows the two index queries return, the scores those the
        matcher gives them; `dated` says whether the submission has an event date. */
    method ResolveWithReviews(entry: I.Entry, dated: bool, dateHits: seq<EventId>, registrationHits: seq<EventId>,
                              score: EventId -> real, limit: int)
      returns (r: Outcome)
      requires F.NoRepeats(dateHits)
      modifies this, events
      ensures r == Failed(LimitNotPositive) <==> limit <= 0
      ensures Forest(old(events.graph)) && limit > 0 ==> r.Resolved?
      ensures old(reviews) <= reviews
      ensures r.Failed? ==> reviews == old(reviews)
      ensures r.Resolved? ==>
                var event, d := r.resolution.event, Routed(dated, dateHits, registrationHits, score);
                Unmerged(events.graph, event) && event in index
                && (r.resolution.created <==> event !in old(events.graph))
                && events.graph == (if r.resolution.created then Grow(old(events.graph), Created(event)) else old(events.graph))
                && (r.resolution.created <==> !(d.Attach? && Walk(old(events.graph), d.candidate, {}).Root?))
                && index == old(index)[event := if r.resolution.created then I.Upserted(old(Row(event)), I.Validated(entry))
                                                else AttachedRow(old(Row(event)), d.candidate, event, entry)]
                && (!r.resolution.created ==> Walk(old(events.graph), d.candidate, {}) == Root(event))
                && r.resolution.attachedBy == (if !r.resolution.created then IdentityMatch
                                               else if r.resolution.reviews != [] then DuplicateReview else NewEvent)
      ensures r.Resolved? ==>
                var event, d, ids := r.resolution.event, Routed(dated, dateHits, registrationHits, score), r.resolution.reviews;
                var wanted := if r.resolution.created then Reviewed(events.graph, M.ReviewCandidates(d), event, limit) else [];
                |ids| == |wanted| && F.NoRepeats(ids)
                && (forall i | 0 <= i < |ids| ::
                      Queued(old(reviews), reviews, wanted[i], event, TopScore(dateHits, registrationHits, score), ids[i]))
                && forall k | |old(reviews)| <= k < |reviews| :: k in ids
    {
      if limit <= 0 {
        return Failed(LimitNotPositive);
      }
      if !dated {
        var event := CreateEvent(entry);
        return Resolved(Resolution(event, [], true, NewEvent));
      }
      var hits := Candidates(dateHits, registrationHits);
      var decision := M.Decide(Scored(hits, score));
      if decision.Attach? {
        var existing := TryAttach(decision.candidate, entry);
        NoCycleInForest(events.graph, decision.candidate);
        if existing.Err? {
          return Failed(BrokenMergeChain(existing.error));
        }
        if existing.value.Some? {
          WalkIsSound(events.graph, decision.candidate, {});
          return Resolved(Resolution(existing.value.value, [], false, IdentityMatch));
        }
      }
      var event := CreateEvent(entry);
      var ids := [];
      if decision.Review? {
        var candidates := CanonicalCandidates(M.ReviewCandidates(decision), event, limit);
        GrownForestHasNoCycle(old(events.graph), event);
        if candidates.Err? {
          return Failed(BrokenMergeChain(candidates.error));
        }
        ReviewedNoRepeats(events.graph, M.ReviewCandidates(decision), event, limit);
        ids := QueueReviews(candidates.value, event, M.MaxScore(Scored(hits, score)));
      }
      return Resolved(Resolution(event, ids, true, if ids != [] then DuplicateReview else NewEvent));
    }
  }

  function Scored(ids: seq<EventId>, score: EventId -> real): (r: seq<M.Candidate>)
    ensures |r| == |ids|
  {
    seq(|ids|, i requires 0 <= i < |ids| => M.Candidate(ids[i], score(ids[i])))
  }

  /** The matcher's decision over the distinct hits of both queries; without a date there is none. */
  function Routed(dated: bool, dateHits: seq<EventId>, registrationHits: seq<EventId>,
                  score: EventId -> real): M.Decision {
    if dated then M.Decided(Scored(F.Distinct(dateHits + registrationHits), score)) else M.NewEvent
  }

  function TopScore(dateHits: seq<EventId>, registrationHits: seq<EventId>, score: EventId -> real): real {
    M.MaxScore(Scored(F.Distinct(dateHits + registrationHits), score))
  }

  function AttachedRow(row: Option<I.Entry>, candidate: EventId, existing: EventId, entry: I.Entry): I.Entry {
    if candidate == existing then I.Upserted(row, I.Validated(entry)) else I.Enriched(row, I.Validated(entry))
  }

  /** The row of an event a submission was attached to: if the event itself was matched, what the submission gives
      displaces what was stored; if an event merged into it was, it only fills gaps, and its registration joins the
      aliases. */
  lemma AttachedRowMeans(row: Option<I.Entry>, candidate: EventId, existing: EventId, entry: I.Entry, column: I.Column)
    ensures var given, stored := I.ColumnOf(entry, column), I.ScalarOf(row, column);
            I.ScalarOf(Some(AttachedRow(row, candidate, existing, entry)), column)
            == if candidate == existing then (if given.Some? then given else stored)
               else if stored.Some? then stored else given
    ensures candidate != existing && row.Some? && entry.registration.Some? ==>
              entry.registration.value in AttachedRow(row, candidate, existing, entry).aliases
  {
    var write := if candidate == existing then I.Upsert(entry) else I.Enrich(entry);
    I.ScalarAfterWrite(row, write, column);
    if candidate != existing && row.Some? && entry.registration.Some? {
      A.LastIsKept(row.value.aliases + I.Validated(entry).aliases, entry.registration.value);
    }
  }

  lemma NoCycleInForest(g: Graph, id: EventId)
    ensures Forest(g) ==> !Walk(g, id, {}).Cycle?
  {
    if Forest(g) && id in g {
      assert Rooted(g, id);
      RootedIff(g, id);
    }
  }

  lemma GrownForestHasNoCycle(g: Graph, event: EventId)
    ensures Forest(g) ==> forall id :: !Walk(Grow(g, Created(event)), id, {}).Cycle?
  {
    if Forest(g) {
      GrowKeepsForest(g, Created(event));
      forall id ensures !Walk(Grow(g, Created(event)), id, {}).Cycle? {
        NoCycleInForest(Grow(g, Created(event)), id);
      }
    }
  }

  /** The review a candidate ends up with: the one its pair had, or a new pending one. */
  ghost predicate Queued(before: seq<Review>, after: seq<Review>, candidate: EventId, newEvent: EventId, score: real,
                         id: nat) {
    id < |after| && OfPair(after[id], candidate, newEvent)
    && match Existing(before, candidate, newEvent)
       case Some(had) => id == had
       case None => id >= |before| && after[id] == Review(candidate, newEvent, Pending, score)
  }

  lemma DifferentPairsDifferentReviews(reviews: seq<Review>, candidates: seq<EventId>, newEvent: EventId, ids: seq<nat>)
    requires F.NoRepeats(candidates) && newEvent !in candidates && |ids| == |candidates|
    requires forall i | 0 <= i < |ids| :: ids[i] < |reviews| && OfPair(reviews[ids[i]], candidates[i], newEvent)
    ensures F.NoRepeats(ids)
  {
    forall i, j | 0 <= i < j < |ids| ensures ids[i] != ids[j] {
      assert candidates[i] != candidates[j] && candidates[i] in candidates && candidates[j] in candidates;
      assert OfPair(reviews[ids[i]], candidates[i], newEvent) && OfPair(reviews[ids[j]], candidates[j], newEvent);
    }
  }

  // ---------- Ties between aliases ----------

  /** Every event of the list stands for `target`. */
  ghost predicate AllStandFor(g: Graph, ids: seq<EventId>, target: EventId) {
    forall i | 0 <= i < |ids| :: Canonical(g, ids[i]) == target
  }

  lemma OneDistinct(xs: seq<EventId>, x: EventId)
    requires xs != [] && forall i | 0 <= i < |xs| :: xs[i] == x
    ensures F.Distinct(xs) == [x]
  {
    hide F.Distinct;
    F.DistinctByFirstPosition(xs);
    var d := F.Distinct(xs);
    assert |d| > 1 ==> d[0] != d[1];
    assert xs[0] in d;
    forall i | 0 <= i < |d| ensures d[i] == x {
      assert d[i] in xs;
    }
  }

  lemma ReviewedAlone(g: Graph, ids: seq<EventId>, target: EventId, newEvent: EventId, limit: nat)
    requires ids != [] && AllStandFor(g, ids, target) && target != newEvent && limit > 0
    ensures Reviewed(g, ids, newEvent, limit) == [target]
  {
    OneDistinct(Canonicals(g, ids), target);
    F.ExceptNothing([target], newEvent);
  }

  /** Several confident hits that all stand for one event are a tie, not a match: the submission gets an
      event of its own, with one review against that event. */
  lemma TiedAliasesAreReviewed(g: Graph, dateHits: seq<EventId>, registrationHits: seq<EventId>, score: EventId -> real,
                               target: EventId, newEvent: EventId, limit: nat)
    requires var top := M.Top(Scored(F.Distinct(dateHits + registrationHits), score));
             |top| > 1 && AllStandFor(g, top, target)
    requires TopScore(dateHits, registrationHits, score) >= M.HIGH_CONFIDENCE && target != newEvent && limit > 0
    ensures Routed(true, dateHits, registrationHits, score).Review?
    ensures Reviewed(g, M.ReviewCandidates(Routed(true, dateHits, registrationHits, score)), newEvent, limit) == [target]
  {
    var top := M.Top(Scored(F.Distinct(dateHits + registrationHits), score));
    M.DecisionIsByTopScore(Scored(F.Distinct(dateHits + registrationHits), score));
    F.DistinctByFirstPosition(top);
    var ids := F.Distinct(top);
    assert top[0] in ids;
    forall i | 0 <= i < |ids| ensures Canonical(g, ids[i]) == target {
      assert ids[i] in top;
    }
    ReviewedAlone(g, ids, target, newEvent, limit);
  }

  lemma TwoTied(a: EventId, b: EventId, score: EventId -> real)
    requires a != b && score(a) == score(b) > 0.0
    ensures F.Distinct([a, b]) == [a, b]
    ensures M.Top(Scored([a, b], score)) == [a, b] && M.MaxScore(Scored([a, b], score)) == score(a)
  {
    hide M.Top, M.MaxScore, F.Distinct;
    F.DistinctOfNoRepeats([a, b]);
    M.TopOfTwo(M.Candidate(a, score(a)), M.Candidate(b, score(b)));
    assert Scored([a, b], score) == [M.Candidate(a, score(a))] + [M.Candidate(b, score(b))];
  }

  lemma AliasStandsFor(g: Graph, a: EventId, b: EventId, event: EventId)
    requires a in g && g[a] == Some(b) && Unmerged(g, b) && event !in g
    ensures AllStandFor(Grow(g, Created(event)), [a, b], b)
  {
    assert Walk(g, b, {} + {a}) == Root(b);
    CreateKeepsWalks(g, event, a, {});
    CreateKeepsWalks(g, event, b, {});
  }

  /** A submission that matches an event and an alias merged into it equally well and confidently. It is
      not attached to the event, though both hits stand for it. */
  method SubmitBesideAlias(service: EventResolutionService, entry: I.Entry, a: EventId, b: EventId,
                           score: EventId -> real, limit: int)
    returns (r: Outcome)
    requires Forest(service.events.graph) && Unmerged(service.events.graph, b)
    requires a != b && a in service.events.graph && service.events.graph[a] == Some(b)
    requires score(a) == score(b) >= M.HIGH_CONFIDENCE && limit > 0
    modifies service, service.events
    ensures r.Resolved? && r.resolution.created && r.resolution.attachedBy == DuplicateReview
    ensures |r.resolution.reviews| == 1 && r.resolution.event != b
    ensures var id := r.resolution.reviews[0];
            id < |service.reviews| && OfPair(service.reviews[id], b, r.resolution.event)
  {
    hide M.Top, M.MaxScore, F.Distinct, Walk;
    ghost var g := service.events.graph;
    assert [a, b] + [] == [a, b];
    TwoTied(a, b, score);
    r := service.ResolveWithReviews(entry, true, [a, b], [], score, limit);
    ghost var event := r.resolution.event;
    M.DecisionIsByTopScore(Scored([a, b], score));
    AliasStandsFor(g, a, b, event);
    TiedAliasesAreReviewed(service.events.graph, [a, b], [], score, b, event, limit);
  }
}
