/**
 Idempotent replay: which resubmissions of an ingestion run are accepted, and what a replayed result
 says. Hash digests are of the submission's canonical JSON.
 */
module Replay {
  import opened Optional
  import F = FirstOccurrences
  import G = MergeGraph
  import J = JsonValues

  /** Canonical JSON texts: the hash material of a submission, that of an earlier release, which had
      captured_at in it, or any other. A raw payload can be of any of the three kinds. */
  datatype Canonical =
    | SubmissionText(content: Submission)
    | EarlierText(submission: Submission)
    | OtherText(text: string)

  type Claims = map<string, J.Json>

  /** A submission, its claims by field name: duplicate names are rejected before hashing, and the hash
      material lists the claims in a fixed order. */
  datatype Submission = Submission(
    rawPayload: Canonical, claims: Claims,
    sourceRecordId: Option<string>, eventId: Option<nat>, capturedAt: Option<int>)

  /** Everything but the import time. */
  function Content(s: Submission): Submission {
    s.(capturedAt := None)
  }

  type Digest = Canonical

  /** SHA-256 of a canonical JSON text. */
  type Hash = Canonical -> Digest

  ghost predicate Injective(hash: Hash) {
    forall a, b :: hash(a) == hash(b) ==> a == b
  }

  lemma InjectiveHashExists()
    ensures exists hash: Hash :: Injective(hash)
  {
    var hash: Hash := text => text;
    assert Injective(hash);
  }

  datatype Fingerprint = Fingerprint(claims: Claims, sourceRecordId: Option<string>, eventId: Option<nat>)

  /** Python's equality of two sorted claim lists. */
  predicate SameClaims(a: Claims, b: Claims) {
    a.Keys == b.Keys && forall f | f in a.Keys :: J.PyEqual(a[f], b[f])
  }

  datatype Snapshot = Snapshot(
    payloadHash: Digest, submissionHash: Option<Digest>, rawPayloadHash: Option<Digest>,
    fingerprint: Option<Fingerprint>, result: Option<StoredResult>, claimEvent: Option<nat>)

  /** snapshot_hash_matches. */
  predicate SnapshotHashMatches(hash: Hash, row: Snapshot, s: Submission) {
    var stored := if row.submissionHash.Some? then row.submissionHash.value else row.payloadHash;
    if stored == hash(SubmissionText(Content(s))) then true
    else if row.rawPayloadHash == Some(hash(s.rawPayload))
            && row.fingerprint.Some?
            && row.fingerprint.value.sourceRecordId == s.sourceRecordId
            && row.fingerprint.value.eventId == s.eventId
            && SameClaims(row.fingerprint.value.claims, s.claims) then true
    else row.fingerprint.None? && row.rawPayloadHash.None? && stored == hash(s.rawPayload)
  }

  /** What the fingerprint column hands back of the claims. */
  function KeptClaims(repr: J.Repr, claims: Claims): Claims {
    map f | f in claims.Keys :: J.Kept(repr, claims[f])
  }

  /** Whether the release that wrote a row had captured_at in the hash material. */
  datatype Release = HashedContent | HashedCapturedAt

  /** A row with a fingerprint, as written for a submission and read back. */
  ghost predicate RowOf(hash: Hash, repr: J.Repr, release: Release, row: Snapshot, s: Submission) {
    row.payloadHash == hash(match release
                            case HashedContent => SubmissionText(Content(s))
                            case HashedCapturedAt => EarlierText(s))
    && row.submissionHash == Some(row.payloadHash) && row.rawPayloadHash == Some(hash(s.rawPayload))
    && row.fingerprint == Some(Fingerprint(KeptClaims(repr, s.claims), s.sourceRecordId, s.eventId))
  }

  /** A row from before fingerprints, when payload_hash held the hash of the raw payload. */
  ghost predicate LegacyRowOf(hash: Hash, row: Snapshot, s: Submission) {
    row.submissionHash == None && row.payloadHash == hash(s.rawPayload)
    && row.rawPayloadHash == None && row.fingerprint == None
  }

  // ---------- Which resubmissions are accepted ----------

  predicate SameContext(a: Submission, b: Submission) {
    a.rawPayload == b.rawPayload && a.sourceRecordId == b.sourceRecordId && a.eventId == b.eventId
  }

  /** The same submission to Python: raw payload and ids equal, and the claims equal as parsed JSON. */
  predicate SameSubmission(a: Submission, b: Submission) {
    SameContext(a, b) && SameClaims(a.claims, b.claims)
  }

  /** Raw payload and ids equal, and the claims equal to Python to what the column kept of the stored ones. */
  predicate SameAsKept(repr: J.Repr, stored: Submission, s: Submission) {
    SameContext(stored, s) && SameClaims(KeptClaims(repr, stored.claims), s.claims)
  }

  predicate Repeats(repr: J.Repr, release: Release, stored: Submission, s: Submission) {
    SameAsKept(repr, stored, s) || (release.HashedContent? && Content(s) == Content(stored))
  }

  /** A row with a fingerprint accepts a submission that Python cannot tell from what the column kept, and,
      if its hash is of the content, the very same content; and no other. */
  lemma AcceptsIff(hash: Hash, repr: J.Repr, release: Release, row: Snapshot, stored: Submission, s: Submission)
    requires Injective(hash) && RowOf(hash, repr, release, row, stored)
    ensures SnapshotHashMatches(hash, row, s) <==> Repeats(repr, release, stored, s)
  {
  }

  lemma SameClaimsRefl(a: Claims)
    ensures SameClaims(a, a)
  {
    forall f | f in a.Keys ensures J.PyEqual(a[f], a[f]) {
      J.PyEqualRefl(a[f]);
    }
  }

  /** Two claim lists equal to a third are equal, whatever the third respelled. */
  lemma SameClaimsVia(via: Claims, a: Claims, b: Claims)
    requires SameClaims(via, a)
    ensures SameClaims(via, b) <==> SameClaims(a, b)
  {
    forall f | f in a.Keys && f in b.Keys ensures J.PyEqual(via[f], b[f]) <==> J.PyEqual(a[f], b[f]) {
      J.PyEqualSym(via[f], a[f]);
      if J.PyEqual(via[f], b[f]) {
        J.PyEqualTrans(a[f], via[f], b[f]);
      }
      if J.PyEqual(a[f], b[f]) {
        J.PyEqualTrans(via[f], a[f], b[f]);
      }
    }
  }

  /** Some claim holds a float that the column rounds. */
  ghost predicate ClaimsRounded(repr: J.Repr, claims: Claims) {
    exists f | f in claims.Keys :: J.Rounded(repr, claims[f])
  }

  lemma KeptClaimsAreEqualIff(repr: J.Repr, claims: Claims)
    ensures SameClaims(KeptClaims(repr, claims), claims) <==> !ClaimsRounded(repr, claims)
  {
    forall f | f in claims.Keys ensures J.PyEqual(J.Kept(repr, claims[f]), claims[f]) <==> !J.Rounded(repr, claims[f]) {
      J.KeptIsEqualIff(repr, claims[f]);
    }
  }

  /** Of all submissions: a row accepts exactly those that are the same to Python if and only if the column
      rounded no float of its claims. It then refuses none for its import time. */
  lemma AcceptsWhatPythonEquatesIff(hash: Hash, repr: J.Repr, release: Release, row: Snapshot, stored: Submission)
    requires Injective(hash) && RowOf(hash, repr, release, row, stored)
    ensures (forall s :: SnapshotHashMatches(hash, row, s) <==> SameSubmission(stored, s))
            <==> !ClaimsRounded(repr, stored.claims)
  {
    var kept := KeptClaims(repr, stored.claims);
    KeptClaimsAreEqualIff(repr, stored.claims);
    if ClaimsRounded(repr, stored.claims) {
      var s := stored.(claims := kept);
      SameClaimsRefl(kept);
      AcceptsIff(hash, repr, release, row, stored, s);
      if SameClaims(stored.claims, kept) {
        SameClaimsSym(stored.claims, kept);
      }
      assert SnapshotHashMatches(hash, row, s) && !SameSubmission(stored, s);
    } else {
      SameClaimsRefl(stored.claims);
      forall s ensures SnapshotHashMatches(hash, row, s) <==> SameSubmission(stored, s) {
        AcceptsIff(hash, repr, release, row, stored, s);
        SameClaimsVia(kept, stored.claims, s.claims);
      }
    }
  }

  lemma SameClaimsSym(a: Claims, b: Claims)
    requires SameClaims(a, b)
    ensures SameClaims(b, a)
  {
    SameClaimsRefl(a);
    SameClaimsVia(a, b, a);
  }

  /** A row accepts the very content it was written for if and only if its hash is of the content or the
      column rounded no float. */
  lemma AcceptsItsOwnContentIff(hash: Hash, repr: J.Repr, release: Release, row: Snapshot, stored: Submission,
                                s: Submission)
    requires Injective(hash) && RowOf(hash, repr, release, row, stored) && Content(s) == Content(stored)
    ensures SnapshotHashMatches(hash, row, s) <==> release.HashedContent? || !ClaimsRounded(repr, stored.claims)
  {
    AcceptsIff(hash, repr, release, row, stored, s);
    KeptClaimsAreEqualIff(repr, stored.claims);
    assert s.claims == Content(s).claims && SameContext(Content(stored), Content(s));
  }

  /** Some claim of the second list holds, at the same place, another text of what the column kept of a number. */
  ghost predicate ClaimsRespelled(repr: J.Repr, a: Claims, b: Claims) {
    exists f | f in a.Keys && f in b.Keys :: J.Respelled(repr, a[f], b[f])
  }

  lemma SameClaimTextsIff(repr: J.Repr, a: Claims, b: Claims)
    requires SameClaims(KeptClaims(repr, a), b)
    ensures a == b <==> !ClaimsRespelled(repr, a, b)
  {
    assert KeptClaims(repr, a).Keys == a.Keys;
    forall f | f in a.Keys ensures a[f] == b[f] <==> !J.Respelled(repr, a[f], b[f]) {
      assert KeptClaims(repr, a)[f] == J.Kept(repr, a[f]);
      J.SameTextIff(repr, a[f], b[f]);
    }
    assert (forall f | f in a.Keys :: a[f] == b[f]) ==> a == b;
  }

  /** Of one submission: the guard of the current release decides by content if and only if the submission is
      not a respelling of the stored one. */
  lemma DecidesByContentIff(hash: Hash, repr: J.Repr, row: Snapshot, stored: Submission, s: Submission)
    requires Injective(hash) && RowOf(hash, repr, HashedContent, row, stored)
    ensures (SnapshotHashMatches(hash, row, s) <==> Content(s) == Content(stored))
            <==> !(SameAsKept(repr, stored, s) && ClaimsRespelled(repr, stored.claims, s.claims))
  {
    AcceptsIff(hash, repr, HashedContent, row, stored, s);
    if SameAsKept(repr, stored, s) {
      SameClaimTextsIff(repr, stored.claims, s.claims);
      SameContentIff(stored, s);
    }
  }

  lemma SameContentIff(a: Submission, b: Submission)
    ensures Content(a) == Content(b) <==> SameContext(a, b) && a.claims == b.claims
  {
  }

  ghost function RespelledClaims(repr: J.Repr, claims: Claims): Claims {
    map f | f in claims.Keys :: J.Respell(repr, claims[f])
  }

  /** Of all submissions: a row accepts nothing but its own content if and only if no claim of it holds a
      number that can be written as another JSON type. */
  lemma AcceptsOnlyItsContentIff(hash: Hash, repr: J.Repr, release: Release, row: Snapshot, stored: Submission)
    requires Injective(hash) && RowOf(hash, repr, release, row, stored)
    ensures (forall s :: SnapshotHashMatches(hash, row, s) ==> Content(s) == Content(stored))
            <==> forall f | f in stored.claims.Keys :: !J.Respellable(stored.claims[f])
  {
    if f :| f in stored.claims.Keys && J.Respellable(stored.claims[f]) {
      var s := stored.(claims := RespelledClaims(repr, stored.claims));
      RespellingIsAccepted(hash, repr, release, row, stored);
      J.RespellIsKept(repr, stored.claims[f]);
      assert s.claims[f] != stored.claims[f];
      assert Content(s) != Content(stored);
    } else {
      forall s | SnapshotHashMatches(hash, row, s) ensures Content(s) == Content(stored) {
        AcceptsIff(hash, repr, release, row, stored, s);
        if SameAsKept(repr, stored, s) {
          NothingToRespell(repr, stored.claims, s.claims);
          SameClaimTextsIff(repr, stored.claims, s.claims);
        }
      }
    }
  }

  lemma RespellingIsAccepted(hash: Hash, repr: J.Repr, release: Release, row: Snapshot, stored: Submission)
    requires Injective(hash) && RowOf(hash, repr, release, row, stored)
    ensures SnapshotHashMatches(hash, row, stored.(claims := RespelledClaims(repr, stored.claims)))
  {
    forall f | f in stored.claims.Keys
      ensures J.PyEqual(J.Kept(repr, stored.claims[f]), J.Respell(repr, stored.claims[f]))
    {
      J.RespellIsKept(repr, stored.claims[f]);
    }
    AcceptsIff(hash, repr, release, row, stored, stored.(claims := RespelledClaims(repr, stored.claims)));
  }

  lemma NothingToRespell(repr: J.Repr, a: Claims, b: Claims)
    requires forall f | f in a.Keys :: !J.Respellable(a[f])
    ensures !ClaimsRespelled(repr, a, b)
  {
    if f :| f in a.Keys && f in b.Keys && J.Respelled(repr, a[f], b[f]) {
      J.RespelledIsRespellable(repr, a[f], b[f]);
      assert false;
    }
  }

  /** Resubmitting 1 as true, or as 1.0, is accepted, though the claims say something else. */
  lemma OneAsTrueIsAccepted(hash: Hash, repr: J.Repr, release: Release, row: Snapshot, stored: Submission,
                            value: J.Json)
    requires Injective(hash) && RowOf(hash, repr, release, row, stored) && stored.claims == map["x" := J.Int(1)]
    requires value == J.Bool(true) || (value.Float? && value.x == 1.0)
    ensures var s := stored.(claims := map["x" := value]);
            SnapshotHashMatches(hash, row, s) && Content(s) != Content(stored)
            && hash(SubmissionText(Content(s))) != hash(SubmissionText(Content(stored)))
  {
    var s := stored.(claims := map["x" := value]);
    AcceptsIff(hash, repr, release, row, stored, s);
    assert s.claims["x"] != stored.claims["x"];
  }

  /** 2^53 + 1 is the value of no float: a run stored with it accepts nothing else. */
  lemma NoFloatIsAcceptedFor(hash: Hash, repr: J.Repr, release: Release, row: Snapshot, stored: Submission,
                             s: Submission)
    requires Injective(hash) && RowOf(hash, repr, release, row, stored)
    requires stored.claims == map["x" := J.Int(9007199254740993)] && SnapshotHashMatches(hash, row, s)
    ensures Content(s) == Content(stored)
  {
    J.OddIsDoubleIff(9007199254740993);
    AcceptsOnlyItsContentIff(hash, repr, release, row, stored);
  }

  /** The double nearest to 10^24 is less than it, and its shortest text is 1e+24. A run stored with it accepts
      the integer 10^24, which is another number; and a row of the earlier release refuses the same float. */
  lemma FloatIsRounded(hash: Hash, repr: J.Repr, release: Release, row: Snapshot, stored: Submission, x: J.Double)
    requires Injective(hash) && RowOf(hash, repr, release, row, stored) && stored.claims == map["x" := J.Float(x)]
    requires x == 999999999999999983222784.0 && repr(x) == 1000000000000000000000000
    ensures var s := stored.(claims := map["x" := J.Int(repr(x))]);
            SnapshotHashMatches(hash, row, s) && !SameSubmission(stored, s)
    ensures SnapshotHashMatches(hash, row, stored) <==> release.HashedContent?
  {
    var s := stored.(claims := map["x" := J.Int(repr(x))]);
    assert !J.PyEqual(stored.claims["x"], s.claims["x"]);
    AcceptsIff(hash, repr, release, row, stored, s);
    assert J.Rounded(repr, stored.claims["x"]);
    AcceptsItsOwnContentIff(hash, repr, release, row, stored, stored);
  }

  /** A row from before fingerprints knows the raw payload alone. It accepts whatever repeats it, whatever the
      claims, and a submission whose whole hash material is that payload. */
  lemma LegacyAcceptsIff(hash: Hash, row: Snapshot, stored: Submission, s: Submission)
    requires Injective(hash) && LegacyRowOf(hash, row, stored)
    ensures SnapshotHashMatches(hash, row, s) <==>
            s.rawPayload == stored.rawPayload || SubmissionText(Content(s)) == stored.rawPayload
  {
  }

  // ---------- Results ----------

  datatype IngestionResult = IngestionResult(
    eventId: nat, eventCreated: bool, snapshotCreated: bool, idempotentReplay: bool,
    primary: Option<nat>, reviews: seq<nat>, attachedBy: string)

  /** IngestionResult.__post_init__: one primary review, first among distinct ids. */
  function Normalised(r: IngestionResult): IngestionResult {
    var ids := F.Distinct(r.reviews);
    var primary := if r.primary == None && ids != [] then Some(ids[0]) else r.primary;
    if primary == None then r.(primary := None, reviews := ids)
    else r.(primary := primary, reviews := [primary.value] + F.Except(ids, primary.value))
  }

  function InFront(primary: Option<nat>, ids: seq<nat>): seq<nat> {
    match primary
    case None => ids
    case Some(p) => [p] + ids
  }

  /** What every result object satisfies. */
  ghost predicate Consistent(r: IngestionResult) {
    F.NoRepeats(r.reviews) && (r.primary == if r.reviews == [] then None else Some(r.reviews[0]))
  }

  lemma NormalisedWithPrimary(r: IngestionResult)
    requires r.primary.Some?
    ensures Normalised(r).reviews == F.Distinct(InFront(r.primary, r.reviews)) && Consistent(Normalised(r))
  {
    F.DistinctOfFront(r.primary.value, r.reviews);
    F.DistinctByFirstPosition([r.primary.value] + r.reviews);
  }

  lemma NormalisedWithoutPrimary(r: IngestionResult)
    requires r.primary.None?
    ensures Normalised(r).reviews == F.Distinct(r.reviews) && Consistent(Normalised(r))
  {
    F.DistinctByFirstPosition(r.reviews);
    if F.Distinct(r.reviews) != [] {
      HeadInFront(F.Distinct(r.reviews));
    }
  }

  lemma HeadInFront(ids: seq<nat>)
    requires F.NoRepeats(ids) && ids != []
    ensures [ids[0]] + F.Except(ids, ids[0]) == ids
  {
    F.ExceptHead(ids);
  }

  /** Normalising lists the given primary and the given ids once each, in that order, and makes the first
      of them the primary. */
  lemma NormalisedReviews(r: IngestionResult)
    ensures Normalised(r).reviews == F.Distinct(InFront(r.primary, r.reviews)) && Consistent(Normalised(r))
  {
    match r.primary
    case None => NormalisedWithoutPrimary(r);
    case Some(_) => NormalisedWithPrimary(r);
  }

  lemma ConsistentReviews(r: IngestionResult)
    requires Consistent(r)
    ensures F.Distinct(InFront(r.primary, r.reviews)) == r.reviews
  {
    F.DistinctOfNoRepeats(r.reviews);
    if r.primary.Some? {
      F.DistinctOfFront(r.primary.value, r.reviews);
      F.ExceptHead(r.reviews);
    }
  }

  /** Rebuilding a result from its own fields changes nothing. */
  lemma NormalisedTwice(r: IngestionResult)
    ensures Normalised(Normalised(r)) == Normalised(r)
  {
    NormalisedReviews(r);
    NormalisedReviews(Normalised(r));
    ConsistentReviews(Normalised(r));
  }

  /** The stored JSON; an absent key is None or empty. */
  datatype StoredResult = StoredResult(
    schemaVersion: int, eventIdAtCompletion: Option<nat>, eventId: Option<nat>, eventCreated: bool,
    snapshotCreated: bool, primary: Option<nat>, reviews: seq<nat>, attachedBy: string)

  /** _ingestion_result_json. */
  function Stored(r: IngestionResult): StoredResult {
    StoredResult(1, Some(r.eventId), Some(r.eventId), r.eventCreated, r.snapshotCreated, r.primary, r.reviews, r.attachedBy)
  }

  datatype Failure =
    | PayloadMismatch
    | InProgress
    | Corrupt
    | BrokenMergeChain(error: G.Error)

  datatype Outcome = NoReplay | Replayed(result: IngestionResult) | Failed(failure: Failure)

  /** The ids _result_from_json hands on: the distinct stored ids, the primary put in front if missing. */
  function HandedOn(stored: StoredResult): seq<nat> {
    var ids := F.Distinct(stored.reviews);
    if stored.primary.Some? && stored.primary.value !in ids then [stored.primary.value] + ids else ids
  }

  /** The result a replay of this JSON gives when its event's canonical id is known. */
  function ReplayOf(stored: StoredResult, canonical: nat): IngestionResult {
    Normalised(IngestionResult(canonical, stored.eventCreated, false, true, stored.primary, HandedOn(stored),
                               if stored.attachedBy == "" then "idempotent_replay" else stored.attachedBy))
  }

  /** It does not matter that the primary is put in front twice. */
  lemma HandedOnInFront(stored: StoredResult)
    ensures F.Distinct(InFront(stored.primary, HandedOn(stored))) == F.Distinct(InFront(stored.primary, stored.reviews))
  {
    var ids := F.Distinct(stored.reviews);
    F.DistinctByFirstPosition(stored.reviews);
    F.DistinctOfNoRepeats(ids);
    if stored.primary.Some? {
      var p := stored.primary.value;
      F.DistinctOfFront(p, stored.reviews);
      if p in ids {
        F.DistinctOfFront(p, ids);
      } else {
        F.ExceptNothing(ids, p);
        InFrontTwice(p, ids);
      }
    }
  }

  lemma InFrontTwice(p: nat, ids: seq<nat>)
    requires F.NoRepeats(ids) && p !in ids
    ensures F.Distinct([p] + ([p] + ids)) == [p] + ids
  {
    var once := [p] + ids;
    assert F.NoRepeats(once);
    F.DistinctOfNoRepeats(once);
    F.DistinctOfFront(p, once);
    F.ExceptHead(once);
  }

  /** Whatever JSON was stored, a replay's reviews are the primary followed by the other stored ids, each
      once and in order. */
  lemma ReplayReviews(stored: StoredResult, canonical: nat)
    ensures Consistent(ReplayOf(stored, canonical))
    ensures ReplayOf(stored, canonical).reviews == F.Distinct(InFront(stored.primary, stored.reviews))
  {
    HandedOnInFront(stored);
    NormalisedReviews(IngestionResult(canonical, stored.eventCreated, false, true, stored.primary, HandedOn(stored),
                                      if stored.attachedBy == "" then "idempotent_replay" else stored.attachedBy));
  }

  class IngestionIdempotencyService {
    const hash: Hash
    const events: G.Events
    var snapshots: map<(nat, nat), Snapshot>

    constructor (hash: Hash, events: G.Events)
      ensures this.hash == hash && this.events == events && snapshots == map[]
    {
      this.hash, this.events := hash, events;
      snapshots := map[];
    }

    /** _result_from_snapshot with _result_from_json; an empty or absent JSON falls back on the event of
        the snapshot's claims. */
    method ResultFromSnapshot(row: Snapshot) returns (r: Outcome)
      ensures r == Reported(events.graph, row)
    {
      if row.result.None? {
        if row.claimEvent.None? {
          return NoReplay;
        }
        var event := events.ReplayEventId(row.claimEvent.value);
        if event.Err? {
          return Failed(BrokenMergeChain(event.error));
        }
        return Replayed(Normalised(IngestionResult(event.value, false, false, true, None, [],
                                                   "idempotent_replay_legacy_claim_lookup")));
      }
      var stored := row.result.value;
      if stored.schemaVersion != 1 {
        return Failed(Corrupt);
      }
      var seed := if stored.eventIdAtCompletion.Some? then stored.eventIdAtCompletion else stored.eventId;
      if seed.None? {
        return Failed(Corrupt);
      }
      var event := events.ReplayEventId(seed.value);
      if event.Err? {
        return Failed(BrokenMergeChain(event.error));
      }
      var ids := F.Distinct(stored.reviews);
      if stored.primary.Some? && stored.primary.value !in ids {
        ids := [stored.primary.value] + ids;
      }
      return Replayed(Normalised(IngestionResult(event.value, stored.eventCreated, false, true, stored.primary, ids,
                                                 if stored.attachedBy != "" then stored.attachedBy else "idempotent_replay")));
    }

    /** check: a run seen before is replayed, refused or still in progress; a new run goes on. */
    method Check(sourceId: nat, runId: nat, submission: Submission) returns (r: Outcome)
      ensures (sourceId, runId) !in snapshots <==> r == NoReplay
      ensures r == if (sourceId, runId) in snapshots then Checked(hash, events.graph, snapshots[(sourceId, runId)], submission)
                   else NoReplay
    {
      if (sourceId, runId) !in snapshots {
        return NoReplay;
      }
      var row := snapshots[(sourceId, runId)];
      if !SnapshotHashMatches(hash, row, submission) {
        return Failed(PayloadMismatch);
      }
      r := ResultFromSnapshot(row);
      if r.NoReplay? {
        return Failed(InProgress);
      }
    }
  }

  function CanonicalOf(g: G.Graph, id: nat): G.Result<nat> {
    var end := G.Walk(g, id, {});
    if end.Cycle? then G.Err(G.EventAlreadyMerged(id)) else G.Report(end)
  }

  /** What a snapshot row says when replayed. */
  function Reported(g: G.Graph, row: Snapshot): Outcome {
    match row.result
    case Some(stored) =>
      var seed := if stored.eventIdAtCompletion.Some? then stored.eventIdAtCompletion else stored.eventId;
      if stored.schemaVersion != 1 || seed == None then Failed(Corrupt)
      else (match CanonicalOf(g, seed.value)
            case Err(e) => Failed(BrokenMergeChain(e))
            case Ok(event) => Replayed(ReplayOf(stored, event)))
    case None =>
      if row.claimEvent == None then NoReplay
      else match CanonicalOf(g, row.claimEvent.value)
           case Err(e) => Failed(BrokenMergeChain(e))
           case Ok(event) =>
             Replayed(IngestionResult(event, false, false, true, None, [], "idempotent_replay_legacy_claim_lookup"))
  }

  /** The answer to a submission whose run is stored. */
  function Checked(hash: Hash, g: G.Graph, row: Snapshot, s: Submission): Outcome {
    if !SnapshotHashMatches(hash, row, s) then Failed(PayloadMismatch)
    else if Reported(g, row) == NoReplay then Failed(InProgress)
    else Reported(g, row)
  }

  /** Store a completed result, let the merge graph change in any way, and read it for a replay: it is the
      original one, with its event's current canonical id and marked as a replay that wrote no snapshot. */
  lemma StoreThenReplay(g: G.Graph, changes: seq<G.Change>, row: Snapshot, r: IngestionResult)
    requires row.result == Some(Stored(r)) && Consistent(r) && G.Unmerged(g, r.eventId)
    ensures Reported(G.Grown(g, changes), row)
            == Replayed(r.(eventId := G.Follow(g, r.eventId, changes), snapshotCreated := false, idempotentReplay := true,
                           attachedBy := if r.attachedBy == "" then "idempotent_replay" else r.attachedBy))
  {
    assert G.Walk(g, r.eventId, {}) == G.Root(r.eventId);
    G.ReplayTracksMerges(g, changes, r.eventId, r.eventId);
    StoredResultComesBack(r, G.Follow(g, r.eventId, changes));
  }

  /** The stored record is readable, names the event at completion, and loses nothing of a fresh result. */
  lemma StoredLosesNothing(a: IngestionResult, b: IngestionResult)
    requires a.idempotentReplay == b.idempotentReplay && Stored(a) == Stored(b)
    ensures a == b && Stored(a).schemaVersion == 1 && Stored(a).eventIdAtCompletion == Some(a.eventId)
  {
  }

  lemma StoredResultComesBack(r: IngestionResult, event: nat)
    requires Consistent(r)
    ensures ReplayOf(Stored(r), event)
            == r.(eventId := event, snapshotCreated := false, idempotentReplay := true,
                  attachedBy := if r.attachedBy == "" then "idempotent_replay" else r.attachedBy)
  {
    ReplayReviews(Stored(r), event);
    ConsistentReviews(r);
  }

  /** The event a readable row says its run ended on: the one at completion, or, in an older record without it, the
      event; and without a record, the event of its claims. */
  predicate EndedOn(row: Snapshot, e: nat) {
    match row.result
    case None => row.claimEvent == Some(e)
    case Some(stored) =>
      stored.schemaVersion == 1
      && (stored.eventIdAtCompletion == Some(e) || (stored.eventIdAtCompletion == None && stored.eventId == Some(e)))
  }

  /** Which rows have no result yet, and which hold one that cannot be read. */
  lemma UnreadableIff(g: G.Graph, row: Snapshot)
    ensures Reported(g, row) == NoReplay <==> row.result == None && row.claimEvent == None
    ensures Reported(g, row) == Failed(Corrupt) <==>
            row.result.Some? && (row.result.value.schemaVersion != 1
                                 || (row.result.value.eventIdAtCompletion == None && row.result.value.eventId == None))
  {
  }

  /** The event a replay names, by reachability: the unmerged event the stored one leads to. It fails when a merge
      pointer dangles, naming the missing event, and when the pointers never end, naming the stored one. */
  lemma ReplayedEventIff(g: G.Graph, row: Snapshot, stored: nat)
    requires EndedOn(row, stored)
    ensures forall e: nat :: Reported(g, row).Replayed? && Reported(g, row).result.eventId == e <==>
                             G.Unmerged(g, e) && G.Reaches(g, stored, e)
    ensures forall m: nat :: Reported(g, row) == Failed(BrokenMergeChain(G.EventNotFound(m))) <==>
                             m !in g && G.Reaches(g, stored, m)
    ensures Reported(g, row) == Failed(BrokenMergeChain(G.EventAlreadyMerged(stored))) <==> G.Endless(g, stored)
  {
    G.WalkIsReachability(g, stored);
  }

  /** A run from before results were stored: the replay names the event its claims are on, or the one that event has
      since been merged into, and says nothing else of the original result. */
  lemma LegacyThenReplay(g: G.Graph, changes: seq<G.Change>, row: Snapshot, e: nat)
    requires row.result == None && row.claimEvent == Some(e) && G.Unmerged(g, e)
    ensures Reported(G.Grown(g, changes), row)
            == Replayed(IngestionResult(G.Follow(g, e, changes), false, false, true, None, [],
                                        "idempotent_replay_legacy_claim_lookup"))
  {
    assert G.Walk(g, e, {}) == G.Root(e);
    G.ReplayTracksMerges(g, changes, e, e);
  }

  /** What becomes of a resubmission of a completed run, after any changes to the merge graph: the stored
      answer if it repeats the stored submission, whatever its import time, and a mismatch otherwise. */
  lemma StoreThenCheck(hash: Hash, repr: J.Repr, release: Release, g: G.Graph, changes: seq<G.Change>, row: Snapshot,
                       stored: Submission, r: IngestionResult, s: Submission)
    requires Injective(hash) && RowOf(hash, repr, release, row, stored)
    requires row.result == Some(Stored(r)) && Consistent(r) && G.Unmerged(g, r.eventId)
    ensures Checked(hash, G.Grown(g, changes), row, s)
            == if !Repeats(repr, release, stored, s) then Failed(PayloadMismatch)
               else Replayed(r.(eventId := G.Follow(g, r.eventId, changes), snapshotCreated := false, idempotentReplay := true,
                                attachedBy := if r.attachedBy == "" then "idempotent_replay" else r.attachedBy))
  {
    AcceptsIff(hash, repr, release, row, stored, s);
    StoreThenReplay(g, changes, row, r);
  }

  /** A run that has stored neither result nor claims is in progress to whoever repeats it. */
  lemma RunningThenCheck(hash: Hash, repr: J.Repr, release: Release, g: G.Graph, row: Snapshot, stored: Submission,
                         s: Submission)
    requires Injective(hash) && RowOf(hash, repr, release, row, stored)
    ensures Checked(hash, g, row, s) == Failed(InProgress) <==>
            Repeats(repr, release, stored, s) && row.result == None && row.claimEvent == None
  {
    AcceptsIff(hash, repr, release, row, stored, s);
  }
}
