# Match engine of the election back end

This project models the match engine of an election application and proves
properties of the model. Candidates of an election meet in matches. Users
vote in the active match. When a match ends, the candidate with the most
votes wins it and gains a point. In the knockout formats the winners then
advance: the next idle match of the round is activated, or, once both matches
of a pair are finished, a next-round match between the two winners is
created. When every match of the election is finished, the election is Ended.

The modules follow the program's structure:

- `Models`: the entities. These are Election, its type and status, Candidate, Match and Vote.
- `VoteRepository`: the three vote queries of the data layer, as pure functions over the vote table.
- `Tally`: the vote count of `EndMatchAsync`. It groups votes by candidate, orders the groups by count descending and takes the first.
- `Bracket`: the power-of-two guard and the shape of the matches each generator creates.
- `Advancement`: the round arithmetic of `AdvanceWinnerInKnockoutAsync`.
  - `PlanAdvance` computes the decision it takes as an `AdvanceStep` value.
  - `ApplyAdvance` applies that step to the match table.
- `MatchService`: the service's stateful side.
  - The class `Store` holds the match, vote, candidate and election tables.
  - Its methods are the service operations, each proved against the functions above.
  - It also holds the pure queries `GetActiveMatch` and `MatchWinner`.
- `Scenarios`: a four-candidate knockout cup played from generation to the final through the `Store` methods.
  - A user changes their vote along the way.
  - A second end of a finished match is refused.

Identifiers (Guids) are natural numbers. `Store.nextId` hands out fresh ones.
The order of a table is the database's order: the queries return rows in
table order.

## Model

| member | source | states |
|---|---|---|
| VoteRepository.GetByMatchId | Backend.DAL/Repositories/Implemetations/VoteRepository.cs:24-31 | the votes of a match are exactly the stored votes with that match id, each with its multiplicity |
| VoteRepository.GetByMatchIdAppend | Backend.DAL/Repositories/Implemetations/VoteRepository.cs:24-31 | filtering by match distributes over concatenation, so the filter keeps table order |
| VoteRepository.HasUserVoted | Backend.DAL/Repositories/Implemetations/VoteRepository.cs:33-38 | true exactly when some stored vote has this match and this user |
| VoteRepository.UserVoteIndex | Backend.DAL/Repositories/Implemetations/VoteRepository.cs:40-45 | the position of the first vote of the user in the match, None exactly when there is none |
| VoteRepository.GetUserVote | Backend.DAL/Repositories/Implemetations/VoteRepository.cs:40-45 | returns a stored vote of this user in this match, None exactly when the user has none there |
| VoteRepository.HasUserVotedIffGetUserVote | Backend.DAL/Repositories/Implemetations/VoteRepository.cs:33-45 | HasUserVotedAsync is true exactly when GetUserVoteAsync finds a vote |
| VoteRepository.OneVotePerUserCount | Backend.DAL/Repositories/Implemetations/VoteRepository.cs:33-45 | with at most one vote per user and match, a user has one vote in a match if they have voted and none otherwise |
| Tally.VoteCountPositive | Backend.BL/Services/Implemetations/MatchService.cs:192-193 | a candidate has a non-empty group exactly when some vote names it |
| Tally.FirstVoteAt | Backend.BL/Services/Implemetations/MatchService.cs:192 | the position of the candidate's first vote: it names the candidate and no earlier vote does |
| Tally.GroupKeys | Backend.BL/Services/Implemetations/MatchService.cs:192 | the group keys are exactly the voted-for candidates, each once |
| Tally.GroupKeysInFirstVoteOrder | Backend.BL/Services/Implemetations/MatchService.cs:192 | groups come in the order of each candidate's first vote |
| Tally.GroupsCountEveryVote | Backend.BL/Services/Implemetations/MatchService.cs:192-193 | no vote is lost or counted twice: the counts of the groups add up to the number of votes |
| Tally.TopIndex | Backend.BL/Services/Implemetations/MatchService.cs:194-198 | the first group of the stable descending sort: its count is maximal and every earlier group has fewer votes |
| Tally.TallyWinner | Backend.BL/Services/Implemetations/MatchService.cs:190-198 | a winner exists exactly when there is at least one vote |
| Tally.TallyWinnerIsMostVotedEarliest | Backend.BL/Services/Implemetations/MatchService.cs:190-198 | the tally picks w exactly when w has the most votes and, among candidates tied with it, was voted for first |
| Tally.TallyWinnerWasVotedFor | Backend.BL/Services/Implemetations/MatchService.cs:190-198 | the tally winner received at least one vote |
| Bracket.IsPowerOfTwoCorrect | Backend.BL/Services/Implemetations/MatchService.cs:439-442 | the bit test n > 0 && (n & (n - 1)) == 0 holds exactly when n is a power of two |
| Bracket.PowerOfTwoHalves | Backend.BL/Services/Implemetations/MatchService.cs:439-442 | above one, the bit test holds of n exactly when n is even and it holds of n / 2 |
| Bracket.SingleCandidatePassesGuard | Backend.BL/Services/Implemetations/MatchService.cs:154-173 | every one-element candidate list passes the guard, and the first loop pass then reads index 1, which is outside the list |
| Bracket.KnockoutSizePairsUp | Backend.BL/Services/Implemetations/MatchService.cs:154-173 | under the corrected guard the count is even and every even position has a partner |
| Advancement.MatchPos | Backend.BL/Services/Implemetations/MatchService.cs:187 | the position of the first match with the id, None exactly when no match has it |
| Advancement.MatchPosOfMember | Backend.BL/Services/Implemetations/MatchService.cs:187 | with distinct ids, looking up a stored match's id finds that match |
| Advancement.InRoundMembers | Backend.BL/Services/Implemetations/MatchService.cs:242-248 | the round filter keeps exactly the election's matches of that round |
| Advancement.InRoundAppend | Backend.BL/Services/Implemetations/MatchService.cs:242-248 | appending a match adds it to the round filter exactly when it belongs to that round |
| Advancement.InsertSpec | Backend.BL/Services/Implemetations/MatchService.cs:249 | insertion adds exactly the new match and keeps the list sorted by match index |
| Advancement.InsertPermutes | Backend.BL/Services/Implemetations/MatchService.cs:249 | insertion adds exactly one occurrence of the match to the multiset |
| Advancement.SortByIndexSpec | Backend.BL/Services/Implemetations/MatchService.cs:249 | OrderBy(MatchIndex) returns a list sorted by match index with the same members and length |
| Advancement.SortByIndexPermutes | Backend.BL/Services/Implemetations/MatchService.cs:249 | OrderBy(MatchIndex) is a permutation of its input |
| Advancement.RoundMatchesSpec | Backend.BL/Services/Implemetations/MatchService.cs:242-250 | the current round is sorted by match index and holds exactly the election's matches of that round |
| Advancement.TruncDiv | Backend.BL/Services/Implemetations/MatchService.cs:269 | C# `/` truncates toward zero: the quotient never has the opposite sign of the dividend, and the remainder has the dividend's sign and is smaller than the divisor |
| Advancement.FirstIdleIndex | Backend.BL/Services/Implemetations/MatchService.cs:334-337 | the first match that is neither finished nor active, None exactly when there is none |
| Advancement.FirstIdleIsLowest | Backend.BL/Services/Implemetations/MatchService.cs:334-337 | in a round sorted by match index, the first idle match has the lowest match index of all idle matches |
| Advancement.MaxIndex | Backend.BL/Services/Implemetations/MatchService.cs:304 | the largest match index of a non-empty list, attained by one of its matches |
| Advancement.Activate | Backend.BL/Services/Implemetations/MatchService.cs:341-342 | only the match with the id changes, and it becomes active |
| Advancement.InOwnRound | Backend.BL/Services/Implemetations/MatchService.cs:247-250 | a finished match is always in its own round's list |
| Advancement.RoundHasWinners | Backend.BL/Services/Implemetations/MatchService.cs:283-284 | if every finished match has a winner, so does every finished match of a round |
| Advancement.FinalIffSingleMatchRound | Backend.BL/Services/Implemetations/MatchService.cs:259-263 | the plan is FinalPlayed (advancement stops because the final was played) exactly when the finished match's round holds a single match |
| Advancement.PairOffsetNonNegative | Backend.BL/Services/Implemetations/MatchService.cs:268-269 | the finished match's offset from the round's first match index is never negative |
| Advancement.DecideCreates | Backend.BL/Services/Implemetations/MatchService.cs:279-318 | a new match is planned only for a complete pair, with winners that exist and are not yet paired in the next round, at the next free index |
| Advancement.DecidePending | Backend.BL/Services/Implemetations/MatchService.cs:328-345 | an incomplete pair activates the round's first idle match, or nothing if there is none |
| Advancement.DecideCompletePair | Backend.BL/Services/Implemetations/MatchService.cs:279-327 | a complete pair goes to the winner lookup and the duplicate check |
| Advancement.PlanOfCompletePair | Backend.BL/Services/Implemetations/MatchService.cs:265-327 | both pair slots hold winners and the plan is the winner step for them |
| Advancement.CreatePlanPair | Backend.BL/Services/Implemetations/MatchService.cs:265-304 | a planned creation pairs the winners of both slots of the finished match's pair |
| Advancement.CreatedMatchPairsWinners | Backend.BL/Services/Implemetations/MatchService.cs:279-318 | the new match pairs two finished matches' winners of the same round. No next-round match already holds both, and the new match index is above every next-round index, or 1 in an empty round |
| Advancement.NextRoundFacts | Backend.BL/Services/Implemetations/MatchService.cs:297-304 | the duplicate check and the next-index rule, stated over the whole match table |
| Advancement.PendingPicksFirstIdle | Backend.BL/Services/Implemetations/MatchService.cs:334-337 | the pending step names the first idle match of the sorted round |
| Advancement.ActivatedMatchIsLowestIdle | Backend.BL/Services/Implemetations/MatchService.cs:328-345 | the activated match is an idle match of the same round with the lowest match index, and None means the round has no idle match |
| Advancement.RoundMatchesAppendOther | Backend.BL/Services/Implemetations/MatchService.cs:247-250 | adding a match of another round leaves a round unchanged |
| Advancement.ApplyAdvanceKeepsFinished | Backend.BL/Services/Implemetations/MatchService.cs:239-346 | advancement never changes a finished match |
| Advancement.AppendKeepsWinners | Backend.BL/Services/Implemetations/MatchService.cs:306-318 | appending an unfinished match keeps every finished match's winner |
| Advancement.AppendedPairFound | Backend.BL/Services/Implemetations/MatchService.cs:296-301 | once the next-round match of a pair exists, advancing the same pair again finds it and creates nothing |
| Advancement.AdvanceAgainFindsCreatedMatch | Backend.BL/Services/Implemetations/MatchService.cs:296-326 | creation appends exactly one match, and repeating the advancement afterwards is a no-op |
| MatchService.MatchPosKept | Backend.BL/Services/Implemetations/MatchService.cs:187 | updates that keep ids and rosters keep every match's position |
| MatchService.VotesForParticipantsKept | Backend.BL/Services/Implemetations/MatchService.cs:394-400 | votes name a participant of their match, and updates that keep rosters preserve this |
| MatchService.UpdateKeepsRosters | Backend.BL/Services/Implemetations/MatchService.cs:200-204 | replacing a match by one with the same id and participants keeps all rosters |
| MatchService.AppendKeepsRosters | Backend.BL/Services/Implemetations/MatchService.cs:318 | adding a match keeps the rosters of the existing ones |
| MatchService.ActivateKeepsRosters | Backend.BL/Services/Implemetations/MatchService.cs:341-342 | activation keeps all rosters |
| MatchService.ActivateKeepsInvariants | Backend.BL/Services/Implemetations/MatchService.cs:341-342 | activation keeps ids distinct and fresh, and keeps winners on finished matches |
| MatchService.AppendFreshKeepsInvariants | Backend.BL/Services/Implemetations/MatchService.cs:306-318 | adding an unfinished match with a fresh id keeps the table invariants |
| MatchService.FinishKeepsInvariants | Backend.BL/Services/Implemetations/MatchService.cs:200-204 | finishing a match with a winner keeps the table invariants |
| MatchService.FindMatch | Backend.BL/Services/Implemetations/MatchService.cs:187 | finds a stored match with the id, None exactly when no match has it |
| MatchService.CastVoteKeepsOneVotePerUser | Backend.BL/Services/Implemetations/MatchService.cs:402-427 | the vote upsert keeps at most one vote per user and match |
| MatchService.CastVoteRecordsChoice | Backend.BL/Services/Implemetations/MatchService.cs:402-427 | after the upsert the user has exactly one vote there, for the chosen candidate, stamped now. An existing vote keeps its id and creation time, and a new vote gets a fresh id |
| MatchService.CastVoteKeepsOtherVotes | Backend.BL/Services/Implemetations/MatchService.cs:402-427 | no other user's or other match's vote changes |
| MatchService.CastVoteSize | Backend.BL/Services/Implemetations/MatchService.cs:402-427 | the table grows by one exactly when the user had not voted in the match |
| MatchService.MatchWinner | Backend.BL/Services/Implemetations/MatchService.cs:190-198 | with no votes the caller's winner is used, otherwise the tally winner of the match's votes |
| MatchService.WinnerFromVotesIsParticipant | Backend.BL/Services/Implemetations/MatchService.cs:190-198 | when votes decide, the winner is a participant of the match |
| MatchService.AwardPoint | Backend.BL/Services/Implemetations/MatchService.cs:206-212 | only the winner's points change, by one, and a winner missing from the table changes nothing |
| MatchService.CreatingNextMatchNeverEnds | Backend.BL/Services/Implemetations/MatchService.cs:218-233 | an end that creates a next-round match never ends the election |
| MatchService.ActiveIndex | Backend.BL/Services/Implemetations/MatchService.cs:350-351 | the first position of an active, unfinished match of the election, None exactly when there is none |
| MatchService.GetActiveMatch | Backend.BL/Services/Implemetations/MatchService.cs:348-373 | returns an active, unfinished stored match of the election, None exactly when no match is one |
| MatchService.KnockoutRound | Backend.BL/Services/Implemetations/MatchService.cs:161-179 | an even number of candidates makes half as many first-round matches |
| MatchService.KnockoutRoundCoversCandidates | Backend.BL/Services/Implemetations/MatchService.cs:161-179 | the participants of the first round, in order, are the candidates in input order |
| MatchService.KnockoutRoundShape | Backend.BL/Services/Implemetations/MatchService.cs:161-179 | match k + 1 of round one pairs candidates 2k and 2k + 1 with zero points, unfinished, and only match 1 is active |
| MatchService.KnockoutStartsAtFirstMatch | Backend.BL/Services/Implemetations/MatchService.cs:161-179 | after generation the election's active match is its first match |
| MatchService.Store.GenerateLegacyMatches | Backend.BL/Services/Implemetations/MatchService.cs:133-149 | adds one active, unfinished match with index 1 in round 1, all candidates and one zero point each |
| MatchService.Store.GenerateKnockoutMatches | Backend.BL/Services/Implemetations/MatchService.cs:152-182 | generates exactly when the count is a power of two of at least two, appending the first round. Otherwise it changes nothing |
| MatchService.Store.VoteInMatch | Backend.BL/Services/Implemetations/MatchService.cs:376-431 | succeeds exactly when the match is active and unfinished, its election exists and is Active, and the candidate is in the match. It then performs the vote upsert, and otherwise changes nothing |
| MatchService.Store.AddNextRoundMatch | Backend.BL/Services/Implemetations/MatchService.cs:296-326 | appends the winners' next-round match at the next free index unless one already pairs them |
| MatchService.Store.ActivateNextIdle | Backend.BL/Services/Implemetations/MatchService.cs:333-344 | activates the round's first idle match, if any |
| MatchService.Store.AdvanceCompletedPair | Backend.BL/Services/Implemetations/MatchService.cs:279-327 | for a complete pair, the table becomes the planned advancement |
| MatchService.Store.AdvanceWinnerInKnockout | Backend.BL/Services/Implemetations/MatchService.cs:239-346 | the table becomes the planned advancement, and a fresh id is used only when a match is created |
| MatchService.Store.CloseMatch | Backend.BL/Services/Implemetations/MatchService.cs:200-233 | finishes the match with the winner, awards the point and advances in knockout formats. The election ends exactly when all its matches are finished |
| MatchService.Store.EndMatch | Backend.BL/Services/Implemetations/MatchService.cs:185-237 | returns false and changes nothing for a missing or finished match or a missing election. Otherwise the tally or the caller decides the winner, who gets the point; knockout formats advance and the election ends when all its matches are finished |
| Scenarios.FourMakeTwoMatches | Backend.BL/Services/Implemetations/MatchService.cs:157-179 | four candidates pass the guard and make the matches A-B (active) and C-D |
| Scenarios.SoleVoteWins | Backend.BL/Services/Implemetations/MatchService.cs:190-198 | a single vote decides its match |
| Scenarios.OpeningActivatesSecond | Backend.BL/Services/Implemetations/MatchService.cs:328-345 | ending match 1 of four leaves the pair incomplete and activates match 2 |
| Scenarios.SecondCreatesFinal | Backend.BL/Services/Implemetations/MatchService.cs:279-318 | ending match 2 completes the pair and creates the final, A against D, in round 2 with index 1 |
| Scenarios.FinalEndsCup | Backend.BL/Services/Implemetations/MatchService.cs:226-233 | the final is alone in its round, so advancement stops, and every match is finished |
| Scenarios.OpenCup | Backend.BL/Services/Implemetations/MatchService.cs:152-182 | generation for A, B, C, D yields the two first-round matches |
| Scenarios.EndWithinCup | Backend.BL/Services/Implemetations/MatchService.cs:185-237 | ending an unfinished cup match whose winner and advancement are known yields that table, awards the point and leaves the cup running while a match stays open |
| Scenarios.EndOpening | Backend.BL/Services/Implemetations/MatchService.cs:185-237 | with no votes A wins match 1, gets a point and match 2 becomes active |
| Scenarios.EndOpeningAgain | Backend.BL/Services/Implemetations/MatchService.cs:188 | ending a finished match returns false and changes nothing |
| Scenarios.VoteTwice | Backend.BL/Services/Implemetations/MatchService.cs:402-427 | a user who votes C then D in match 2 holds one vote, for D, with its first id and creation time |
| Scenarios.EndSecond | Backend.BL/Services/Implemetations/MatchService.cs:185-237 | the vote for D overrides the caller's C, D gets a point and the final is created |
| Scenarios.EndFinal | Backend.BL/Services/Implemetations/MatchService.cs:185-237 | A wins the final and the election is Ended |
| Scenarios.PlayCup | Backend.BL/Services/Implemetations/MatchService.cs:133-431 | the whole cup: A is champion with two points, the election is Ended, and the repeated end is refused |

## Left out

- Persistence and the unit of work are not modelled. `SaveChangesAsync`, EF Core change tracking, navigation loading (`Include`) and the shadow foreign key from Candidate to Match are out. Each store method is one atomic change to in-memory tables. Queries see the tracked, modified entities.
- Guids become natural numbers from the store's counter, because `Guid.NewGuid` is a source of fresh values. `DateTime.UtcNow` becomes the `now` parameter of `VoteInMatch`.
- Logging is left out: it writes only messages. The `TimeDuration` field and the DTO mapping of `GetActiveMatchAsync` are left out too. `GetActiveMatch` returns the match itself.
- The 32-bit width of C# `int` is not modelled. Indices, counts and points are unbounded, and no value in the engine comes near the limit.
- The CRUD operations, the League and Group formats, the controllers and the real-time hub are not part of this model.
- MatchService.Store.EndMatch: a missing election makes the model return false with no change. The source returns false after it has staged the match update and the point in the tracked context, and it does not save them. A later save in the same request scope would persist them, and the model does not capture that.
- MatchService.Store.AdvanceWinnerInKnockout: takes no winner parameter. The source's `winnerId` argument is used only in a log message.
- MatchService.MatchWinner: where two candidates tie, the winner is the group that comes first. That is the candidate voted for earliest, as the stable ordering of the code gives; a random choice among tied candidates is not what the code does.
- MatchService.MatchWinner: the caller's fallback winner is not checked to be a participant, since the code does not check it. Only a winner decided by votes is proved to be one (`WinnerFromVotesIsParticipant`).
- Advancement.SortByIndex: the sort is proved sorted by match index and a permutation of its input. That matches with equal indexes keep store order, as the stable `OrderBy` guarantees, is not stated.
- MatchService.Store.VoteInMatch: it does not check that the user exists, as the source does not.

## Findings

| source | as written | input that shows it | evidently intended | confidence | as-written member | corrected member |
|---|---|---|---|---|---|---|
| Backend.BL/Services/Implemetations/MatchService.cs:154-173 | the guard accepts any power of two, 1 included, and the loop then reads `candidates[i + 1]` | a knockout election with one candidate: `IsPowerOfTwo(1)` holds and `candidates[1]` is out of range | reject counts below two, so that every candidate has a partner | not executed | Bracket.SingleCandidatePassesGuard | Bracket.KnockoutSizePairsUp |
