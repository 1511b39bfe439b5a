/**
 The routing decision of the event matcher: which known events score best, whether the best is
 alone, and what follows. How a single candidate is scored is a parameter.
 */
module EventMatching {
  import opened Optional
  import F = FirstOccurrences

  const HIGH_CONFIDENCE := 0.75
  const UNCERTAIN_LOW := 0.40

  datatype Candidate = Candidate(eventId: nat, score: real)

  datatype Match = Match(score: real, candidate: Option<nat>, ambiguous: bool, tied: seq<nat>)

  datatype Decision = Attach(candidate: nat) | Review(best: Option<nat>, tied: seq<nat>) | NewEvent

  function MaxScore(cs: seq<Candidate>): (m: real)
    ensures m >= 0.0 && forall i | 0 <= i < |cs| :: cs[i].score <= m
    ensures m == 0.0 || exists i :: 0 <= i < |cs| && cs[i].score == m
  {
    if cs == [] then 0.0
    else
      var n := |cs| - 1;
      var before := MaxScore(cs[..n]);
      if cs[n].score > before then cs[n].score else before
  }

  /** The candidates with this score, in order. */
  function Scoring(cs: seq<Candidate>, score: real): (r: seq<nat>)
    ensures (exists i :: 0 <= i < |cs| && cs[i].score == score) <==> r != []
  {
    if cs == [] then []
    else
      var n := |cs| - 1;
      if cs[n].score == score then Scoring(cs[..n], score) + [cs[n].eventId] else Scoring(cs[..n], score)
  }

  /** Those with the top score, when anything scored at all. */
  function Top(cs: seq<Candidate>): seq<nat> {
    if MaxScore(cs) == 0.0 then [] else Scoring(cs, MaxScore(cs))
  }

  lemma {:induction false} NoneScoresAbove(cs: seq<Candidate>, score: real)
    requires score > MaxScore(cs)
    ensures Scoring(cs, score) == []
  {
    if cs == [] {
    } else {
      NoneScoresAbove(cs[..|cs| - 1], score);
    }
  }

  /** One more candidate replaces the top, joins it, or is not of it. */
  lemma TopPush(cs: seq<Candidate>, c: Candidate)
    ensures MaxScore(cs + [c]) == if c.score > MaxScore(cs) then c.score else MaxScore(cs)
    ensures Top(cs + [c]) == if c.score > MaxScore(cs) then [c.eventId]
                             else if c.score == MaxScore(cs) && c.score > 0.0 then Top(cs) + [c.eventId]
                             else Top(cs)
  {
    assert (cs + [c])[..|cs|] == cs;
    if c.score > MaxScore(cs) {
      NoneScoresAbove(cs, c.score);
    }
  }

  /** `values` are the events of the candidates with this score, which stand at the positions `at`. */
  ghost predicate ScoringAt(cs: seq<Candidate>, score: real, at: seq<nat>, values: seq<nat>) {
    |at| == |values|
    && (forall j | 0 <= j < |at| :: at[j] < |cs| && cs[at[j]].score == score && values[j] == cs[at[j]].eventId)
    && (forall j, k | 0 <= j < k < |at| :: at[j] < at[k])
    && forall i: nat | i < |cs| && cs[i].score == score :: i in at
  }

  lemma OneMoreScoring(cs: seq<Candidate>, score: real, at: seq<nat>, values: seq<nat>)
    requires cs != [] && ScoringAt(cs[..|cs| - 1], score, at, values)
    ensures var n := |cs| - 1;
            if cs[n].score == score then ScoringAt(cs, score, at + [n], values + [cs[n].eventId])
            else ScoringAt(cs, score, at, values)
  {
    var n := |cs| - 1;
    var all := if cs[n].score == score then at + [n] else at;
    forall i: nat | i < |cs| && cs[i].score == score ensures i in all {
      if i < n {
        assert cs[..n][i] == cs[i];
        assert i in at;
      }
    }
  }

  lemma {:induction false} ScoringPositions(cs: seq<Candidate>, score: real) returns (at: seq<nat>)
    ensures ScoringAt(cs, score, at, Scoring(cs, score))
  {
    if cs == [] {
      at := [];
    } else {
      hide ScoringAt;
      var n := |cs| - 1;
      at := ScoringPositions(cs[..n], score);
      OneMoreScoring(cs, score, at, Scoring(cs[..n], score));
      at := if cs[n].score == score then at + [n] else at;
    }
  }

  /** The top scorers, by position: every candidate that no other outscores, in candidate order, when any scored
      above zero. */
  lemma TopPositions(cs: seq<Candidate>) returns (at: seq<nat>)
    ensures |at| == |Top(cs)|
    ensures forall j | 0 <= j < |at| :: at[j] < |cs| && Top(cs)[j] == cs[at[j]].eventId
    ensures forall j, k | 0 <= j < k < |at| :: at[j] < at[k]
    ensures forall i: nat | i < |cs| ::
              i in at <==> cs[i].score > 0.0 && forall k | 0 <= k < |cs| :: cs[k].score <= cs[i].score
  {
    if MaxScore(cs) == 0.0 {
      at := [];
    } else {
      at := ScoringPositions(cs, MaxScore(cs));
    }
  }

  lemma TopOfOne(c: Candidate)
    requires c.score > 0.0
    ensures Top([c]) == [c.eventId] && MaxScore([c]) == c.score
  {
    assert Scoring([c], c.score) == Scoring([c][..0], c.score) + [c.eventId];
  }

  lemma TopOfTwo(first: Candidate, second: Candidate)
    requires first.score == second.score > 0.0
    ensures Top([first] + [second]) == [first.eventId, second.eventId] && MaxScore([first] + [second]) == first.score
  {
    hide Top, MaxScore, Scoring;
    TopOfOne(first);
    TopPush([first], second);
  }

  /** EventMatcher.best_match. */
  method BestMatch(cs: seq<Candidate>) returns (best: Match)
    ensures best.score == MaxScore(cs)
    ensures best.candidate == if Top(cs) == [] then None else Some(Top(cs)[0])
    ensures best.ambiguous <==> |Top(cs)| > 1 && best.score >= UNCERTAIN_LOW
    ensures best.tied == if best.ambiguous then F.Distinct(Top(cs)) else []
  {
    best := Match(0.0, None, false, []);
    var tied: seq<nat> := [];
    for i := 0 to |cs|
      invariant best == Match(MaxScore(cs[..i]), if tied == [] then None else Some(tied[0]), false, [])
      invariant tied == Top(cs[..i])
    {
      assert cs[..i + 1] == cs[..i] + [cs[i]];
      TopPush(cs[..i], cs[i]);
      if cs[i].score > best.score {
        best := best.(score := cs[i].score, candidate := Some(cs[i].eventId));
        tied := [cs[i].eventId];
      } else if cs[i].score == best.score && cs[i].score > 0.0 {
        // The source first restores the best into an empty list of ties; it never is empty here.
        assert tied != [];
        tied := tied + [cs[i].eventId];
      }
    }
    assert cs[..|cs|] == cs;
    if |tied| > 1 && best.score >= UNCERTAIN_LOW {
      best := best.(ambiguous := true, tied := F.Distinct(tied));
    }
  }

  /** What decide must answer, from the top scorers alone. */
  function Decided(cs: seq<Candidate>): Decision {
    var top := Top(cs);
    if MaxScore(cs) >= HIGH_CONFIDENCE && |top| == 1 then Attach(top[0])
    else if MaxScore(cs) >= UNCERTAIN_LOW then Review(Some(top[0]), if |top| > 1 then F.Distinct(top) else [])
    else NewEvent
  }

  /** EventMatcher.decide. */
  method Decide(cs: seq<Candidate>) returns (d: Decision)
    ensures d == Decided(cs)
  {
    var best := BestMatch(cs);
    if best.score >= HIGH_CONFIDENCE && !best.ambiguous {
      return Attach(best.candidate.value);
    }
    if best.score >= UNCERTAIN_LOW {
      return Review(best.candidate, best.tied);
    }
    return NewEvent;
  }

  /** The events a decision puts under review, as the resolver reads them off it. */
  function ReviewCandidates(d: Decision): seq<nat> {
    match d
    case Review(best, tied) => if tied != [] then tied else if best.Some? then [best.value] else []
    case _ => []
  }

  /** An attachment happens exactly when one candidate alone scores highest and is confident; a review
      covers every top scorer once, in candidate order, exactly when the best is uncertain or tied. */
  lemma DecisionIsByTopScore(cs: seq<Candidate>)
    ensures forall id: nat :: Decided(cs) == Attach(id) <==> Top(cs) == [id] && MaxScore(cs) >= 0.75
    ensures Decided(cs).Review? <==> 0.40 <= MaxScore(cs) && (MaxScore(cs) < 0.75 || |Top(cs)| > 1)
    ensures Decided(cs).Review? ==> ReviewCandidates(Decided(cs)) == F.Distinct(Top(cs))
  {
    var top := Top(cs);
    if |top| == 1 {
      F.DistinctOfNoRepeats(top);
    }
    if |top| > 1 {
      assert top[0] in F.Distinct(top);
    }
  }
}
