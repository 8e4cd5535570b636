/**
 * The entities the match engine reads and writes: elections, candidates,
 * matches and votes.  Navigation properties of the persistence layer are
 * replaced by identifier references (a match lists its participants by id).
 */
module Models {

  /** A Guid: an opaque identity.  Fresh ones are handed out by the store. */
  type Id = nat

  /** A DateTime.UtcNow reading, supplied by the caller. */
  type Timestamp = int

  datatype Option<+T> = None | Some(value: T)

  /** EElectionType, with the same seven formats. */
  datatype ElectionType =
    | LegacySingleVote
    | LegacyMultipleVotes
    | LegacyWeightedVotes
    | Knockout
    | GroupThenKnockout
    | League
    | GroupThenLeague

  /** EElectionStatus; the engine only ever moves an election from Active to Ended. */
  datatype ElectionStatus = Active | Ended

  datatype Election = Election(id: Id, name: string, electionType: ElectionType, status: ElectionStatus)

  /** A contestant; `points` counts the matches it has won. */
  datatype Candidate = Candidate(id: Id, name: string, points: int, electionId: Id)

  /**
   * A match of an election: its participants (candidate ids, in order), a
   * parallel list of per-participant points, a match index that is unique
   * only within its round, and its lifecycle flags.
   */
  datatype Match = Match(
    id: Id,
    electionId: Id,
    candidates: seq<Id>,
    points: seq<int>,
    isFinished: bool,
    matchIndex: int,
    roundNumber: int,
    isActive: bool,
    winnerId: Option<Id>)

  /** One user's ballot in one match. */
  datatype Vote = Vote(
    id: Id,
    matchId: Id,
    candidateId: Id,
    userId: string,
    createdAt: Timestamp,
    updatedAt: Timestamp)

  /** The formats for which finishing a match advances its winner. */
  predicate AdvancesWinners(t: ElectionType) {
    t == Knockout || t == GroupThenKnockout
  }
}
