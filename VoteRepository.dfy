/**
 * The vote queries of the vote repository, as filters over the store's
 * sequence of votes (store order stands for the database's order).
 */
module VoteRepository {
  import opened Models

  /** The filter that HasUserVotedAsync and GetUserVoteAsync share. */
  predicate IsUserVote(v: Vote, matchId: Id, userId: string) {
    v.matchId == matchId && v.userId == userId
  }

  /** The votes cast in `matchId`, in store order, by recursion on the table. */
  function MatchVotes(votes: seq<Vote>, matchId: Id): seq<Vote> {
    if votes == [] then []
    else (if votes[0].matchId == matchId then [votes[0]] else []) + MatchVotes(votes[1..], matchId)
  }

  /** The filter keeps each vote of the match as often as it is stored, and no other vote. */
  lemma {:induction false} MatchVotesCounts(votes: seq<Vote>, matchId: Id)
    ensures forall v :: multiset(MatchVotes(votes, matchId))[v] == if v.matchId == matchId then multiset(votes)[v] else 0
  {
    if votes != [] {
      MatchVotesCounts(votes[1..], matchId);
      assert votes == [votes[0]] + votes[1..];
    }
  }

  /** GetByMatchIdAsync: exactly the votes cast in `matchId`, in store order. */
  function GetByMatchId(votes: seq<Vote>, matchId: Id): (r: seq<Vote>)
    ensures forall v :: multiset(r)[v] == if v.matchId == matchId then multiset(votes)[v] else 0
    ensures forall v :: v in r <==> v in votes && v.matchId == matchId
  {
    MatchVotesCounts(votes, matchId);
    MatchVotes(votes, matchId)
  }

  lemma {:induction false} MatchVotesAppend(a: seq<Vote>, b: seq<Vote>, matchId: Id)
    ensures MatchVotes(a + b, matchId) == MatchVotes(a, matchId) + MatchVotes(b, matchId)
  {
    if a == [] {
      assert a + b == b;
    } else {
      assert (a + b)[0] == a[0] && (a + b)[1..] == a[1..] + b;
      MatchVotesAppend(a[1..], b, matchId);
    }
  }

  /** Filtering distributes over concatenation, so the result keeps store order. */
  lemma GetByMatchIdAppend(a: seq<Vote>, b: seq<Vote>, matchId: Id)
    ensures GetByMatchId(a + b, matchId) == GetByMatchId(a, matchId) + GetByMatchId(b, matchId)
  {
    MatchVotesAppend(a, b, matchId);
  }

  /** HasUserVotedAsync: AnyAsync over the shared filter. */
  function HasUserVoted(votes: seq<Vote>, matchId: Id, userId: string): (r: bool)
    ensures r <==> exists i :: 0 <= i < |votes| && IsUserVote(votes[i], matchId, userId)
  {
    if votes == [] then false
    else if IsUserVote(votes[0], matchId, userId) then true
    else
      var r := HasUserVoted(votes[1..], matchId, userId);
      assert r ==> exists i :: 0 <= i < |votes| && IsUserVote(votes[i], matchId, userId) by {
        if r {
          var i :| 0 <= i < |votes[1..]| && IsUserVote(votes[1..][i], matchId, userId);
          assert IsUserVote(votes[i + 1], matchId, userId);
        }
      }
      r
  }

  /**
   * The position FirstOrDefaultAsync finds: the first vote of `userId` in
   * `matchId`, or None when there is none.
   */
  function UserVoteIndex(votes: seq<Vote>, matchId: Id, userId: string): (r: Option<nat>)
    ensures r.Some? ==> r.value < |votes| && IsUserVote(votes[r.value], matchId, userId)
    ensures r.Some? ==> forall j :: 0 <= j < r.value ==> !IsUserVote(votes[j], matchId, userId)
    ensures r.None? <==> forall j :: 0 <= j < |votes| ==> !IsUserVote(votes[j], matchId, userId)
  {
    if votes == [] then None
    else if IsUserVote(votes[0], matchId, userId) then Some(0)
    else
      match UserVoteIndex(votes[1..], matchId, userId)
      case None => None
      case Some(k) => Some(k + 1)
  }

  /** GetUserVoteAsync: the user's vote in the match, or None. */
  function GetUserVote(votes: seq<Vote>, matchId: Id, userId: string): (r: Option<Vote>)
    ensures r.Some? ==> r.value in votes && r.value.matchId == matchId && r.value.userId == userId
    ensures r.None? <==> forall v :: v in votes ==> !IsUserVote(v, matchId, userId)
  {
    match UserVoteIndex(votes, matchId, userId)
    case None => None
    case Some(k) => Some(votes[k])
  }

  /** The two queries agree, because they apply the same filter. */
  lemma HasUserVotedIffGetUserVote(votes: seq<Vote>, matchId: Id, userId: string)
    ensures HasUserVoted(votes, matchId, userId) <==> GetUserVote(votes, matchId, userId).Some?
  {
  }

  /** How many votes `userId` has in `matchId`. */
  function UserVoteCount(votes: seq<Vote>, matchId: Id, userId: string): nat {
    if votes == [] then 0
    else (if IsUserVote(votes[0], matchId, userId) then 1 else 0) + UserVoteCount(votes[1..], matchId, userId)
  }

  /** At most one vote per (match, user): the key of the upsert. */
  ghost predicate OneVotePerUser(votes: seq<Vote>) {
    forall i, j :: 0 <= i < j < |votes| ==> !IsUserVote(votes[j], votes[i].matchId, votes[i].userId)
  }

  /** Under the upsert key, a user who has voted has exactly one vote. */
  lemma {:induction false} OneVotePerUserCount(votes: seq<Vote>, matchId: Id, userId: string)
    requires OneVotePerUser(votes)
    ensures UserVoteCount(votes, matchId, userId) == if HasUserVoted(votes, matchId, userId) then 1 else 0
  {
    if votes != [] {
      OneVotePerUserCount(votes[1..], matchId, userId);
      if IsUserVote(votes[0], matchId, userId) {
        assert !HasUserVoted(votes[1..], matchId, userId) by {
          forall i | 0 <= i < |votes[1..]|
            ensures !IsUserVote(votes[1..][i], matchId, userId)
          {
            assert votes[1..][i] == votes[i + 1];
          }
        }
      }
    }
  }
}
