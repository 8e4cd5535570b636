/**
 * The match engine: a store of matches, votes, candidates and elections,
 * and the service operations that generate brackets, record votes, finish
 * matches and advance knockout winners.  Each repository call of the
 * service is a read or a staged write on the store's fields; the final
 * save commits the staged state, so the fields hold the state the service
 * sees at every step.
 */
module MatchService {
  import opened Models
  import opened VoteRepository
  import opened Tally
  import opened Bracket
  import opened Advancement

  /** Every stored match has an id the store has already handed out. */
  ghost predicate IdsBelow(ms: seq<Match>, bound: Id) {
    forall j :: 0 <= j < |ms| ==> ms[j].id < bound
  }

  /** Candidate `c` takes part in the stored match with id `matchId`. */
  ghost predicate ParticipantOf(ms: seq<Match>, matchId: Id, c: Id) {
    MatchPos(ms, matchId).Some? && c in ms[MatchPos(ms, matchId).value].candidates
  }

  /** Every vote is for a participant of the match it was cast in. */
  ghost predicate VotesForParticipants(ms: seq<Match>, votes: seq<Vote>) {
    forall k :: 0 <= k < |votes| ==> ParticipantOf(ms, votes[k].matchId, votes[k].candidateId)
  }

  /** `ms'` keeps every match of `ms` at its position with its id and participants. */
  ghost predicate SameRosters(ms: seq<Match>, ms': seq<Match>) {
    |ms| <= |ms'| && forall j :: 0 <= j < |ms| ==> ms'[j].id == ms[j].id && ms'[j].candidates == ms[j].candidates
  }

  lemma MatchPosKept(ms: seq<Match>, ms': seq<Match>, id: Id)
    requires SameRosters(ms, ms') && MatchPos(ms, id).Some?
    ensures MatchPos(ms', id) == MatchPos(ms, id)
  {
    var p := MatchPos(ms, id).value;
    assert ms'[p].id == id;
  }

  lemma VotesForParticipantsKept(ms: seq<Match>, ms': seq<Match>, votes: seq<Vote>)
    requires VotesForParticipants(ms, votes) && SameRosters(ms, ms')
    ensures VotesForParticipants(ms', votes)
  {
    forall k | 0 <= k < |votes| ensures ParticipantOf(ms', votes[k].matchId, votes[k].candidateId) {
      MatchPosKept(ms, ms', votes[k].matchId);
    }
  }

  /** Replacing a match by one with the same id and participants keeps the rosters. */
  lemma UpdateKeepsRosters(ms: seq<Match>, i: nat, x: Match)
    requires i < |ms| && x.id == ms[i].id && x.candidates == ms[i].candidates
    ensures SameRosters(ms, ms[i := x]) && SameRosters(ms[i := x], ms)
  {
  }

  lemma AppendKeepsRosters(ms: seq<Match>, x: Match)
    ensures SameRosters(ms, ms + [x])
  {
  }

  /** Activate changes no id and no participant list. */
  lemma ActivateKeepsRosters(ms: seq<Match>, id: Id)
    ensures SameRosters(ms, Activate(ms, id))
  {
  }

  /** Activate marks one match active and touches nothing else, so recorded winners stay. */
  lemma ActivateKeepsInvariants(ms: seq<Match>, id: Id, bound: Id)
    requires DistinctIds(ms) && IdsBelow(ms, bound) && FinishedHaveWinners(ms)
    ensures DistinctIds(Activate(ms, id)) && IdsBelow(Activate(ms, id), bound) && FinishedHaveWinners(Activate(ms, id))
  {
    var r := Activate(ms, id);
    forall m | m in r && m.isFinished ensures m.winnerId.Some? {
      var j :| 0 <= j < |r| && r[j] == m;
      assert r[j].isFinished == ms[j].isFinished && r[j].winnerId == ms[j].winnerId;
      assert ms[j] in ms;
    }
  }

  /** Appending an unfinished match with a fresh id keeps the match invariants. */
  lemma AppendFreshKeepsInvariants(ms: seq<Match>, x: Match, bound: Id)
    requires DistinctIds(ms) && IdsBelow(ms, bound) && FinishedHaveWinners(ms)
    requires x.id == bound && !x.isFinished
    ensures DistinctIds(ms + [x]) && IdsBelow(ms + [x], bound + 1) && FinishedHaveWinners(ms + [x])
  {
    AppendKeepsWinners(ms, x);
  }

  /** Finishing a match keeps its id and records a winner, so the match invariants stay. */
  lemma FinishKeepsInvariants(ms: seq<Match>, i: nat, f: Match, bound: Id)
    requires DistinctIds(ms) && IdsBelow(ms, bound) && FinishedHaveWinners(ms)
    requires i < |ms| && f.id == ms[i].id && f.winnerId.Some?
    ensures DistinctIds(ms[i := f]) && IdsBelow(ms[i := f], bound) && FinishedHaveWinners(ms[i := f])
  {
    forall m | m in ms[i := f] && m.isFinished ensures m.winnerId.Some? {
      var j :| 0 <= j < |ms[i := f]| && ms[i := f][j] == m;
      if j != i {
        assert ms[j] in ms;
      }
    }
  }

  /** The match GetByIdAsync returns, or None. */
  function FindMatch(ms: seq<Match>, id: Id): (r: Option<Match>)
    ensures r.Some? <==> exists j :: 0 <= j < |ms| && ms[j].id == id
    ensures r.Some? ==> r.value in ms && r.value.id == id
  {
    match MatchPos(ms, id)
    case None => None
    case Some(i) => Some(ms[i])
  }

  /**
   * The three guards of VoteInMatchAsync: the match exists, is active and is
   * not finished; its election exists and is Active; the candidate is one of
   * the match's participants.
   */
  predicate CanVote(ms: seq<Match>, elections: map<Id, Election>, matchId: Id, candidateId: Id) {
    match FindMatch(ms, matchId)
    case None => false
    case Some(m) =>
      && m.isActive && !m.isFinished
      && m.electionId in elections && elections[m.electionId].status == Active
      && candidateId in m.candidates
  }

  /**
   * The vote store after an accepted vote: the user's existing vote in the
   * match is redirected to `candidateId` and restamped, or a new vote with
   * the fresh id `freshId` is appended.
   */
  function CastVote(votes: seq<Vote>, freshId: Id, matchId: Id, candidateId: Id, userId: string,
                    now: Timestamp): seq<Vote>
  {
    match UserVoteIndex(votes, matchId, userId)
    case Some(k) => votes[k := votes[k].(candidateId := candidateId, updatedAt := now)]
    case None => votes + [Vote(freshId, matchId, candidateId, userId, now, now)]
  }

  /** The upsert keeps the (match, user) key unique. */
  lemma CastVoteKeepsOneVotePerUser(votes: seq<Vote>, freshId: Id, matchId: Id, candidateId: Id,
                                    userId: string, now: Timestamp)
    requires OneVotePerUser(votes)
    ensures OneVotePerUser(CastVote(votes, freshId, matchId, candidateId, userId, now))
  {
    var r := CastVote(votes, freshId, matchId, candidateId, userId, now);
    match UserVoteIndex(votes, matchId, userId)
    case Some(k) =>
      forall i, j | 0 <= i < j < |r| ensures !IsUserVote(r[j], r[i].matchId, r[i].userId) {
        assert r[i].matchId == votes[i].matchId && r[i].userId == votes[i].userId;
        assert r[j].matchId == votes[j].matchId && r[j].userId == votes[j].userId;
      }
    case None =>
      forall i, j | 0 <= i < j < |r| ensures !IsUserVote(r[j], r[i].matchId, r[i].userId) {
        if j == |votes| {
          assert !IsUserVote(votes[i], matchId, userId);
        }
      }
  }

  /**
   * After the upsert the user has exactly one vote in the match, for the
   * chosen candidate and stamped `now`; an earlier vote keeps its id and
   * creation time, and a first vote gets the fresh id.
   */
  lemma CastVoteRecordsChoice(votes: seq<Vote>, freshId: Id, matchId: Id, candidateId: Id,
                              userId: string, now: Timestamp)
    requires OneVotePerUser(votes)
    ensures var r := CastVote(votes, freshId, matchId, candidateId, userId, now);
            && UserVoteCount(r, matchId, userId) == 1
            && GetUserVote(r, matchId, userId).Some?
            && GetUserVote(r, matchId, userId).value.candidateId == candidateId
            && GetUserVote(r, matchId, userId).value.updatedAt == now
            && (match GetUserVote(votes, matchId, userId)
                case Some(v) => GetUserVote(r, matchId, userId).value == v.(candidateId := candidateId, updatedAt := now)
                case None => GetUserVote(r, matchId, userId).value == Vote(freshId, matchId, candidateId, userId, now, now))
  {
    var r := CastVote(votes, freshId, matchId, candidateId, userId, now);
    CastVoteKeepsOneVotePerUser(votes, freshId, matchId, candidateId, userId, now);
    OneVotePerUserCount(r, matchId, userId);
    match UserVoteIndex(votes, matchId, userId)
    case Some(k) =>
      assert IsUserVote(r[k], matchId, userId);
      assert forall j :: 0 <= j < k ==> r[j] == votes[j];
      assert UserVoteIndex(r, matchId, userId) == Some(k);
    case None =>
      assert IsUserVote(r[|votes|], matchId, userId);
      assert forall j :: 0 <= j < |votes| ==> r[j] == votes[j];
      assert UserVoteIndex(r, matchId, userId) == Some(|votes|);
  }

  /** The upsert leaves every other (match, user) pair's vote as it was. */
  lemma CastVoteKeepsOtherVotes(votes: seq<Vote>, freshId: Id, matchId: Id, candidateId: Id,
                                userId: string, now: Timestamp, otherMatch: Id, otherUser: string)
    requires otherMatch != matchId || otherUser != userId
    ensures GetUserVote(CastVote(votes, freshId, matchId, candidateId, userId, now), otherMatch, otherUser)
              == GetUserVote(votes, otherMatch, otherUser)
  {
    var r := CastVote(votes, freshId, matchId, candidateId, userId, now);
    forall j | 0 <= j < |votes| ensures IsUserVote(r[j], otherMatch, otherUser) <==> IsUserVote(votes[j], otherMatch, otherUser)
    {
    }
    match UserVoteIndex(votes, otherMatch, otherUser)
    case Some(k) =>
      assert r[k] == votes[k];
      assert UserVoteIndex(r, otherMatch, otherUser) == Some(k);
    case None =>
      assert UserVoteIndex(r, otherMatch, otherUser).None?;
  }

  /** The upsert adds a vote only for a user who had none in the match. */
  lemma CastVoteSize(votes: seq<Vote>, freshId: Id, matchId: Id, candidateId: Id, userId: string, now: Timestamp)
    ensures |CastVote(votes, freshId, matchId, candidateId, userId, now)|
              == |votes| + (if HasUserVoted(votes, matchId, userId) then 0 else 1)
  {
  }

  /** The winner EndMatchAsync records: the tally winner, or the caller's fallback when nobody voted. */
  function MatchWinner(votes: seq<Vote>, matchId: Id, fallback: Id): (w: Id)
    ensures GetByMatchId(votes, matchId) == [] ==> w == fallback
    ensures GetByMatchId(votes, matchId) != [] ==> IsTallyWinner(GetByMatchId(votes, matchId), w)
  {
    var vs := GetByMatchId(votes, matchId);
    match TallyWinner(vs)
    case Some(w) =>
      TallyWinnerIsMostVotedEarliest(vs, w);
      w
    case None => fallback
  }

  /** A match with votes is won by one of its own participants. */
  lemma WinnerFromVotesIsParticipant(ms: seq<Match>, votes: seq<Vote>, matchId: Id, fallback: Id)
    requires VotesForParticipants(ms, votes)
    requires GetByMatchId(votes, matchId) != []
    ensures ParticipantOf(ms, matchId, MatchWinner(votes, matchId, fallback))
  {
    var vs := GetByMatchId(votes, matchId);
    var w := MatchWinner(votes, matchId, fallback);
    TallyWinnerWasVotedFor(vs);
    var i :| 0 <= i < |vs| && vs[i].candidateId == w;
    assert vs[i] in vs;
    var k :| 0 <= k < |votes| && votes[k] == vs[i];
    assert ParticipantOf(ms, votes[k].matchId, votes[k].candidateId);
  }

  /** The finished match: winner recorded, finished, no longer active. */
  function Finish(m: Match, w: Id): Match {
    m.(winnerId := Some(w), isFinished := true, isActive := false)
  }

  /** winner.Points += 1, when the winner is a stored candidate. */
  function AwardPoint(cands: map<Id, Candidate>, w: Id): (r: map<Id, Candidate>)
    ensures r.Keys == cands.Keys
    ensures forall c :: c in cands && c != w ==> r[c] == cands[c]
    ensures w in cands ==> r[w] == cands[w].(points := cands[w].points + 1)
  {
    if w in cands then cands[w := cands[w].(points := cands[w].points + 1)] else cands
  }

  /** allMatches.All(m => m.IsFinished) over the election's matches. */
  predicate AllFinished(ms: seq<Match>, e: Id) {
    forall m :: m in ms && m.electionId == e ==> m.isFinished
  }

  /** The guards of EndMatchAsync that let it succeed. */
  predicate CanEnd(ms: seq<Match>, elections: map<Id, Election>, matchId: Id) {
    match FindMatch(ms, matchId)
    case None => false
    case Some(m) => !m.isFinished && m.electionId in elections
  }

  /** A freshly created next-round match is unfinished, so creating one never ends the election. */
  lemma CreatingNextMatchNeverEnds(ms: seq<Match>, cands: map<Id, Candidate>, finished: Match, freshId: Id)
    requires finished in ms && FinishedHaveWinners(ms)
    requires PlanAdvance(ms, cands, finished).CreateNextMatch?
    ensures !AllFinished(ApplyAdvance(ms, PlanAdvance(ms, cands, finished), freshId, finished), finished.electionId)
  {
    var step := PlanAdvance(ms, cands, finished);
    var x := NextRoundMatch(freshId, finished, step.winner1, step.winner2, step.matchIndex);
    assert x in ms + [x];
  }

  /** The filter of GetActiveMatchAsync: a match of election `e` that is active and not finished. */
  predicate IsActiveIn(m: Match, e: Id) {
    m.electionId == e && m.isActive && !m.isFinished
  }

  /** Position of the first match that passes the filter. */
  function ActiveIndex(ms: seq<Match>, e: Id): (r: Option<nat>)
    ensures r.Some? ==> r.value < |ms| && IsActiveIn(ms[r.value], e)
    ensures r.Some? ==> forall j :: 0 <= j < r.value ==> !IsActiveIn(ms[j], e)
    ensures r.None? <==> forall j :: 0 <= j < |ms| ==> !IsActiveIn(ms[j], e)
  {
    if ms == [] then None
    else if IsActiveIn(ms[0], e) then Some(0)
    else
      match ActiveIndex(ms[1..], e)
      case None => None
      case Some(k) => Some(k + 1)
  }

  /** GetActiveMatchAsync: the first match of the election that is active and not finished, or None. */
  function GetActiveMatch(ms: seq<Match>, e: Id): (r: Option<Match>)
    ensures r.Some? ==> r.value in ms && IsActiveIn(r.value, e)
    ensures r.None? <==> forall m :: m in ms ==> !IsActiveIn(m, e)
  {
    match ActiveIndex(ms, e)
    case None => None
    case Some(k) => Some(ms[k])
  }

  /** The outcome of GenerateKnockoutMatchesAsync: created, or rejected with an ArgumentException. */
  datatype GenerateOutcome = Generated | InvalidCandidateCount

  /** The first knockout round for `cands`, the matches taking ids from `firstId` on. */
  function KnockoutRound(firstId: Id, e: Id, cands: seq<Id>): (r: seq<Match>)
    requires |cands| % 2 == 0
    ensures |r| == |cands| / 2
  {
    seq(|cands| / 2, k requires 0 <= k < |cands| / 2 => FirstRoundMatch(firstId + k, e, cands[2 * k], cands[2 * k + 1], k))
  }

  /** All participant lists of a list of matches, one after the other. */
  function Participants(ms: seq<Match>): seq<Id> {
    if ms == [] then [] else Participants(ms[..|ms| - 1]) + ms[|ms| - 1].candidates
  }

  /**
   * The first round pairs the candidates in input order: read match by match,
   * its participants are exactly the input list.
   */
  lemma {:induction false} KnockoutRoundCoversCandidates(firstId: Id, e: Id, cands: seq<Id>)
    requires |cands| % 2 == 0
    ensures Participants(KnockoutRound(firstId, e, cands)) == cands
  {
    if cands != [] {
      var n := |cands|;
      var front := cands[..n - 2];
      var r := KnockoutRound(firstId, e, cands);
      var rf := KnockoutRound(firstId, e, front);
      assert |r[..|r| - 1]| == |rf|;
      forall k | 0 <= k < |rf| ensures r[..|r| - 1][k] == rf[k] {
        assert front[2 * k] == cands[2 * k] && front[2 * k + 1] == cands[2 * k + 1];
      }
      assert r[..|r| - 1] == rf;
      KnockoutRoundCoversCandidates(firstId, e, front);
      assert r[|r| - 1].candidates == cands[n - 2..];
      assert cands == front + cands[n - 2..];
    }
  }

  /**
   * The shape of the first round: n/2 unfinished round-one matches numbered
   * 1 to n/2, each a pair with zero points, and only match 1 active.
   */
  lemma KnockoutRoundShape(firstId: Id, e: Id, cands: seq<Id>)
    requires |cands| % 2 == 0
    ensures var r := KnockoutRound(firstId, e, cands);
            forall k :: 0 <= k < |r| ==>
              && r[k].electionId == e && r[k].roundNumber == 1 && r[k].matchIndex == k + 1
              && r[k].candidates == [cands[2 * k], cands[2 * k + 1]] && r[k].points == [0, 0]
              && !r[k].isFinished && r[k].winnerId.None? && (r[k].isActive <==> r[k].matchIndex == 1)
  {
  }

  /** The only active, unfinished match of a freshly generated bracket is match 1. */
  lemma KnockoutStartsAtFirstMatch(ms: seq<Match>, firstId: Id, e: Id, cands: seq<Id>)
    requires |cands| >= 2 && |cands| % 2 == 0
    requires forall m :: m in ms ==> m.electionId != e
    ensures GetActiveMatch(ms + KnockoutRound(firstId, e, cands), e)
              == Some(FirstRoundMatch(firstId, e, cands[0], cands[1], 0))
  {
    var all := ms + KnockoutRound(firstId, e, cands);
    var m0 := all[|ms|];
    assert m0 == FirstRoundMatch(firstId, e, cands[0], cands[1], 0);
    assert IsActiveIn(m0, e);
  }

  /** The store the service works on. */
  class Store {
    var matches: seq<Match>
    var votes: seq<Vote>
    var candidates: map<Id, Candidate>
    var elections: map<Id, Election>
    var nextId: Id   // the source of fresh ids, standing for Guid.NewGuid()

    ghost predicate Valid()
      reads this
    {
      && DistinctIds(matches)
      && IdsBelow(matches, nextId)
      && FinishedHaveWinners(matches)
      && OneVotePerUser(votes)
      && VotesForParticipants(matches, votes)
    }

    constructor(elections: map<Id, Election>, candidates: map<Id, Candidate>)
      ensures Valid()
      ensures this.matches == [] && this.votes == [] && this.nextId == 0
      ensures this.elections == elections && this.candidates == candidates
    {
      this.matches := [];
      this.votes := [];
      this.elections := elections;
      this.candidates := candidates;
      this.nextId := 0;
    }

    /** GenerateLegacyMatchesAsync: one match with every candidate and zero points each. */
    method GenerateLegacyMatches(electionId: Id, cands: seq<Id>)
      requires Valid()
      modifies this
      ensures Valid()
      ensures matches == old(matches) + [LegacyMatch(old(nextId), electionId, cands)]
      ensures nextId == old(nextId) + 1
      ensures votes == old(votes) && candidates == old(candidates) && elections == old(elections)
    {
      var m := Match(nextId, electionId, cands, Zeros(|cands|), false, 1, 1, true, None);
      AppendFreshKeepsInvariants(matches, m, nextId);
      AppendKeepsRosters(matches, m);
      VotesForParticipantsKept(matches, matches + [m], votes);
      matches := matches + [m];
      nextId := nextId + 1;
    }

    /**
     * GenerateKnockoutMatchesAsync: reject a candidate count that cannot be
     * paired into a bracket, otherwise add the first round, pairing the
     * candidates in input order.
     */
    method GenerateKnockoutMatches(electionId: Id, cands: seq<Id>) returns (r: GenerateOutcome)
      requires Valid()
      modifies this
      ensures Valid()
      ensures r == Generated <==> IsKnockoutSize(|cands|)
      ensures r == InvalidCandidateCount ==> matches == old(matches) && nextId == old(nextId)
      ensures r == Generated ==> (|cands| % 2 == 0
                 && matches == old(matches) + KnockoutRound(old(nextId), electionId, cands)
                 && nextId == old(nextId) + |cands| / 2)
      ensures votes == old(votes) && candidates == old(candidates) && elections == old(elections)
    {
      if !IsKnockoutSize(|cands|) {
        return InvalidCandidateCount;
      }
      KnockoutSizePairsUp(|cands|);
      ghost var round := KnockoutRound(nextId, electionId, cands);
      var matchIndex := 1;
      var i := 0;
      while i < |cands|
        invariant 0 <= i <= |cands| && i % 2 == 0
        invariant matchIndex == i / 2 + 1
        invariant nextId == old(nextId) + i / 2
        invariant matches == old(matches) + round[..i / 2]
        invariant votes == old(votes) && candidates == old(candidates) && elections == old(elections)
        invariant DistinctIds(matches) && IdsBelow(matches, nextId) && FinishedHaveWinners(matches)
        invariant VotesForParticipants(matches, votes)
      {
        var m := Match(nextId, electionId, [cands[i], cands[i + 1]], [0, 0], false, matchIndex, 1, matchIndex == 1, None);
        assert m == round[i / 2];
        assert round[..i / 2 + 1] == round[..i / 2] + [m];
        AppendFreshKeepsInvariants(matches, m, nextId);
        AppendKeepsRosters(matches, m);
        VotesForParticipantsKept(matches, matches + [m], votes);
        matches := matches + [m];
        nextId := nextId + 1;
        matchIndex := matchIndex + 1;
        i := i + 2;
      }
      assert round[..|cands| / 2] == round;
      return Generated;
    }

    /**
     * VoteInMatchAsync: refuse a vote the guards reject, otherwise upsert the
     * user's vote in the match.
     */
    method VoteInMatch(matchId: Id, candidateId: Id, userId: string, now: Timestamp) returns (ok: bool)
      requires Valid()
      modifies this
      ensures Valid()
      ensures ok <==> CanVote(old(matches), old(elections), matchId, candidateId)
      ensures !ok ==> votes == old(votes) && nextId == old(nextId)
      ensures ok ==> votes == CastVote(old(votes), old(nextId), matchId, candidateId, userId, now)
      ensures ok ==> nextId == old(nextId) + (if HasUserVoted(old(votes), matchId, userId) then 0 else 1)
      ensures matches == old(matches) && candidates == old(candidates) && elections == old(elections)
    {
      var found := FindMatch(matches, matchId);
      if found.None? || !found.value.isActive || found.value.isFinished {
        return false;
      }
      var m := found.value;
      if m.electionId !in elections || elections[m.electionId].status != Active {
        return false;
      }
      if candidateId !in m.candidates {
        return false;
      }
      assert ParticipantOf(matches, matchId, candidateId);
      CastVoteKeepsOneVotePerUser(votes, nextId, matchId, candidateId, userId, now);
      var existing := UserVoteIndex(votes, matchId, userId);
      if existing.Some? {
        var k := existing.value;
        votes := votes[k := votes[k].(candidateId := candidateId, updatedAt := now)];
      } else {
        votes := votes + [Vote(nextId, matchId, candidateId, userId, now, now)];
        nextId := nextId + 1;
      }
      return true;
    }

    /**
     * The complete-pair branch of AdvanceWinnerInKnockoutAsync, once both
     * winners are known to be stored candidates: add the next-round match of
     * w1 and w2 unless the next round already has a match with both.
     */
    method AddNextRoundMatch(finished: Match, w1: Id, w2: Id)
      requires Valid()
      modifies this
      ensures Valid()
      ensures var nextRound := InRound(old(matches), finished.electionId, finished.roundNumber + 1);
              if HasMatchWith(nextRound, w1, w2) then matches == old(matches) && nextId == old(nextId)
              else matches == old(matches) + [NextRoundMatch(old(nextId), finished, w1, w2, NextMatchIndex(nextRound))]
                   && nextId == old(nextId) + 1
      ensures SameRosters(old(matches), matches)
      ensures votes == old(votes) && candidates == old(candidates) && elections == old(elections)
    {
      var nextRound := InRound(matches, finished.electionId, finished.roundNumber + 1);
      if !HasMatchWith(nextRound, w1, w2) {
        var m := NextRoundMatch(nextId, finished, w1, w2, NextMatchIndex(nextRound));
        AppendFreshKeepsInvariants(matches, m, nextId);
        AppendKeepsRosters(matches, m);
        VotesForParticipantsKept(matches, matches + [m], votes);
        matches := matches + [m];
        nextId := nextId + 1;
      }
    }

    /** The incomplete-pair branch: activate the first match of the sorted round that is neither finished nor active. */
    method ActivateNextIdle(round: seq<Match>)
      requires Valid()
      modifies this
      ensures Valid()
      ensures matches == match FirstIdleIndex(round)
                         case None => old(matches)
                         case Some(k) => Activate(old(matches), round[k].id)
      ensures SameRosters(old(matches), matches)
      ensures votes == old(votes) && candidates == old(candidates) && elections == old(elections) && nextId == old(nextId)
    {
      var k := FirstIdleIndex(round);
      if k.Some? {
        var id := round[k.value].id;
        ActivateKeepsInvariants(matches, id, nextId);
        ActivateKeepsRosters(matches, id);
        VotesForParticipantsKept(matches, Activate(matches, id), votes);
        matches := Activate(matches, id);
      }
    }

    /**
     * The complete-pair branch of AdvanceWinnerInKnockoutAsync: look up both
     * winners among the stored candidates and, when both are there, add
     * their next-round match unless it exists.
     */
    method AdvanceCompletedPair(finished: Match, round: seq<Match>, slots: (Option<Match>, Option<Match>))
      requires Valid() && finished in matches
      requires round == RoundMatches(matches, finished.electionId, finished.roundNumber)
      requires finished in round && |round| != 1
      requires slots == PairSlots(round, finished) && PairComplete(slots)
      modifies this
      ensures Valid()
      ensures matches == ApplyAdvance(old(matches), PlanAdvance(old(matches), candidates, finished), old(nextId), finished)
      ensures nextId == old(nextId) + (if PlanAdvance(old(matches), candidates, finished).CreateNextMatch? then 1 else 0)
      ensures SameRosters(old(matches), matches)
      ensures votes == old(votes) && candidates == old(candidates) && elections == old(elections)
    {
      PlanOfCompletePair(matches, candidates, finished, round, slots);
      var w1 := slots.0.value.winnerId.value;
      var w2 := slots.1.value.winnerId.value;
      if w1 !in candidates || w2 !in candidates {
        return;
      }
      ApplyWinnersStep(matches, candidates, w1, w2, InRound(matches, finished.electionId, finished.roundNumber + 1),
                       nextId, finished);
      AddNextRoundMatch(finished, w1, w2);
    }

    /**
     * AdvanceWinnerInKnockoutAsync, for a match already marked finished in
     * the store: nothing after the final; with both matches of its pair
     * finished, the next-round match of the two winners unless one exists;
     * otherwise the activation of the round's next idle match.
     */
    method AdvanceWinnerInKnockout(finished: Match)
      requires Valid() && finished in matches
      modifies this
      ensures Valid()
      ensures matches == ApplyAdvance(old(matches), PlanAdvance(old(matches), candidates, finished), old(nextId), finished)
      ensures nextId == old(nextId) + (if PlanAdvance(old(matches), candidates, finished).CreateNextMatch? then 1 else 0)
      ensures SameRosters(old(matches), matches)
      ensures votes == old(votes) && candidates == old(candidates) && elections == old(elections)
    {
      var round := RoundMatches(matches, finished.electionId, finished.roundNumber);
      if |round| == 1 {
        FinalIffSingleMatchRound(matches, candidates, finished);
        return;
      }
      InOwnRound(matches, finished);
      var pairIndex := PairIndex(round, finished);
      var first := ElementAtOrDefault(round, pairIndex * 2);
      var second := ElementAtOrDefault(round, pairIndex * 2 + 1);
      assert (first, second) == PairSlots(round, finished);
      if first.Some? && second.Some? && first.value.isFinished && second.value.isFinished {
        AdvanceCompletedPair(finished, round, (first, second));
      } else {
        PlanOfIncompletePair(matches, candidates, finished, round, (first, second));
        ApplyPendingStep(matches, round, nextId, finished);
        ActivateNextIdle(round);
      }
    }

    /**
     * The part of EndMatchAsync after its guards: record winner `w` on match
     * number `i`, award the point, advance the winner in a knockout format
     * and end the election once every one of its matches is finished.
     */
    method CloseMatch(i: nat, w: Id)
      requires Valid() && i < |matches| && !matches[i].isFinished && matches[i].electionId in elections
      modifies this
      ensures Valid()
      ensures var f := Finish(old(matches)[i], w);
              var ms1 := old(matches)[i := f];
              && f in ms1 && FinishedHaveWinners(ms1)
              && matches == (if AdvancesWinners(old(elections)[f.electionId].electionType)
                             then ApplyAdvance(ms1, PlanAdvance(ms1, candidates, f), old(nextId), f)
                             else ms1)
              && nextId == old(nextId) + (if AdvancesWinners(old(elections)[f.electionId].electionType)
                                            && PlanAdvance(ms1, candidates, f).CreateNextMatch? then 1 else 0)
      ensures var e := old(matches)[i].electionId;
              elections == old(elections)[e := old(elections)[e].(status := if AllFinished(matches, e) then Ended
                                                                           else old(elections)[e].status)]
      ensures candidates == AwardPoint(old(candidates), w)
      ensures i < |matches| && matches[i] == Finish(old(matches)[i], w)
      ensures votes == old(votes)
    {
      var m := matches[i];
      var f := Finish(m, w);
      UpdateKeepsRosters(matches, i, f);
      VotesForParticipantsKept(matches, matches[i := f], votes);
      FinishKeepsInvariants(matches, i, f, nextId);
      matches := matches[i := f];
      candidates := AwardPoint(candidates, w);
      var election := elections[m.electionId];
      if AdvancesWinners(election.electionType) {
        ghost var ms1, id1 := matches, nextId;
        AdvanceWinnerInKnockout(f);
        ApplyAdvanceKeepsFinished(ms1, candidates, f, id1, i);
      }
      if AllFinished(matches, m.electionId) {
        elections := elections[m.electionId := election.(status := Ended)];
      }
    }

    /**
     * EndMatchAsync: refuse a missing or finished match (and, with nothing
     * saved, a match of a missing election); otherwise record the winner,
     * award its point, advance it in a knockout format and end the election
     * once all its matches are finished.
     */
    method EndMatch(matchId: Id, winnerId: Id) returns (ok: bool)
      requires Valid()
      modifies this
      ensures Valid()
      ensures ok <==> CanEnd(old(matches), old(elections), matchId)
      ensures !ok ==> matches == old(matches) && candidates == old(candidates)
                      && elections == old(elections) && nextId == old(nextId)
      ensures votes == old(votes)
      ensures ok ==>
        var i := MatchPos(old(matches), matchId).value;
        var w := MatchWinner(old(votes), matchId, winnerId);
        var f := Finish(old(matches)[i], w);
        var ms1 := old(matches)[i := f];
        var e := f.electionId;
        && f in ms1 && FinishedHaveWinners(ms1)
        && candidates == AwardPoint(old(candidates), w)
        && matches == (if AdvancesWinners(old(elections)[e].electionType)
                       then ApplyAdvance(ms1, PlanAdvance(ms1, candidates, f), old(nextId), f)
                       else ms1)
        && nextId == old(nextId) + (if AdvancesWinners(old(elections)[e].electionType)
                                      && PlanAdvance(ms1, candidates, f).CreateNextMatch? then 1 else 0)
        && elections == old(elections)[e := old(elections)[e].(status := if AllFinished(matches, e) then Ended
                                                                         else old(elections)[e].status)]
      ensures ok ==> var i := MatchPos(old(matches), matchId).value;
        && i < |matches| && matches[i] == Finish(old(matches)[i], MatchWinner(old(votes), matchId, winnerId))
    {
      var pos := MatchPos(matches, matchId);
      if pos.None? || matches[pos.value].isFinished {
        return false;
      }
      var i := pos.value;
      var m := matches[i];
      var w := MatchWinner(votes, matchId, winnerId);
      if m.electionId !in elections {
        return false;
      }
      CloseMatch(i, w);
      return true;
    }
  }
}
