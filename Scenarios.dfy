/**
 * A knockout cup of four candidates played from bracket generation to the
 * final, through the store's operations, with the decisions it takes on
 * the way: the first match's end activates the second, the end of the
 * second creates the final between the two winners, and the final's end
 * finishes the election.  Along the way a user changes their vote, and a
 * finished match is refused a second end.
 */
module Scenarios {
  import opened Models
  import opened VoteRepository
  import opened Tally
  import opened Bracket
  import opened Advancement
  import opened MatchService

  const Cup: Id := 100
  const A: Id := 10
  const B: Id := 11
  const C: Id := 12
  const D: Id := 13

  function Roster(): map<Id, Candidate> {
    map[A := Candidate(A, "a", 0, Cup), B := Candidate(B, "b", 0, Cup),
        C := Candidate(C, "c", 0, Cup), D := Candidate(D, "d", 0, Cup)]
  }

  predicate Entered(cands: map<Id, Candidate>) {
    A in cands && B in cands && C in cands && D in cands
  }

  /** Round one of the cup: A against B (match 1, active), C against D (match 2). */
  function Opening(): Match { FirstRoundMatch(0, Cup, A, B, 0) }
  function Second(): Match { FirstRoundMatch(1, Cup, C, D, 1) }

  /** Four candidates pass the guard and are paired in input order. */
  lemma FourMakeTwoMatches()
    ensures IsKnockoutSize(4)
    ensures KnockoutRound(0, Cup, [A, B, C, D]) == [Opening(), Second()]
  {
    assert BitAnd(4, 3) == 0;
  }

  /** A single vote decides its match for the candidate it names. */
  lemma SoleVoteWins(v: Vote, fallback: Id)
    ensures MatchWinner([v], v.matchId, fallback) == v.candidateId
  {
    var vs := GetByMatchId([v], v.matchId);
    assert vs == [v];
    var w := MatchWinner([v], v.matchId, fallback);
    assert VoteCount(vs, w) > 0;
    assert vs[..0] == [];
  }

  /** Round one of the cup: its two matches in index order, and no round 2 yet. */
  lemma RoundOneOfTwo(ms: seq<Match>, x: Match, y: Match)
    requires ms == [x, y]
    requires x.electionId == Cup && x.roundNumber == 1 && y.electionId == Cup && y.roundNumber == 1
    requires x.matchIndex <= y.matchIndex
    ensures RoundMatches(ms, Cup, 1) == [x, y] && InRound(ms, Cup, 2) == []
  {
    assert ms[1..] == [y] && ms[1..][1..] == [];
    assert InRound(ms[1..], Cup, 1) == [y];
    assert InRound(ms[1..][1..], Cup, 2) == [];
    assert InRound(ms[1..], Cup, 2) == [];
    assert InRound(ms, Cup, 1) == [x, y];
    assert SortByIndex([y]) == [y];
  }

  /** With match 2 still idle, ending match 1 (at position 0) activates match 2 and creates nothing. */
  lemma OpeningActivatesSecond(cands: map<Id, Candidate>)
    requires Entered(cands)
    ensures var f := Finish(RoundOne()[0], A);
            var ms := RoundOne()[0 := f];
            && MatchPos(RoundOne(), 0) == Some(0)
            && f in ms && FinishedHaveWinners(ms)
            && PlanAdvance(ms, cands, f) == PairPending(Some(Second()))
            && ApplyAdvance(ms, PlanAdvance(ms, cands, f), 2, f) == AfterOpening()
            && !AllFinished(AfterOpening(), Cup)
  {
    var f := Finish(Opening(), A);
    var ms := RoundOne()[0 := f];
    assert ms == [f, Second()];
    assert FinishedHaveWinners(ms) by {
      assert forall m :: m in ms ==> m == f || m == Second();
    }
    RoundOneOfTwo(ms, f, Second());
    PlanAdvanceDecides(ms, cands, f);
    assert PairSlots([f, Second()], f) == (Some(f), Some(Second()));
    assert FirstIdleIndex([f, Second()]) == Some(1);
    assert AfterOpening()[1] in AfterOpening();
  }

  /**
   * Once both matches of round one are finished (match 2, at position 1,
   * last), the final between their winners is created as match 1 of round 2.
   */
  lemma SecondCreatesFinal(cands: map<Id, Candidate>, ms0: seq<Match>)
    requires Entered(cands) && ms0 == AfterOpening()
    ensures MatchPos(ms0, 1) == Some(1)
    ensures var f := Finish(ms0[1], D);
            var ms := ms0[1 := f];
            && f in ms && FinishedHaveWinners(ms)
            && PlanAdvance(ms, cands, f) == CreateNextMatch(A, D, 1)
            && ApplyAdvance(ms, PlanAdvance(ms, cands, f), 3, f) == AfterSecond()
    ensures !AllFinished(AfterSecond(), Cup)
  {
    var f1 := Finish(Opening(), A);
    var f2 := Finish(Second().(isActive := true), D);
    var ms := ms0[1 := f2];
    assert ms == [f1, f2];
    assert FinishedHaveWinners(ms) by {
      assert forall m :: m in ms ==> m == f1 || m == f2;
    }
    RoundOneOfTwo(ms, f1, f2);
    PlanAdvanceDecides(ms, cands, f2);
    assert PairSlots([f1, f2], f2) == (Some(f1), Some(f2));
    assert ms0[0].id == 0 && ms0[1].id == 1;
    assert ms + [Final()] == AfterSecond();
    assert AfterSecond()[2] in AfterSecond();
  }

  /** The only vote of the cup was cast in match 2, so the final has none. */
  lemma NoVotesInFinal()
    ensures GetByMatchId([Vote(2, 1, D, "u", 5, 6)], 3) == []
  {
    assert [Vote(2, 1, D, "u", 5, 6)][1..] == [];
  }

  /** Round 2 of the cup holds the final alone. */
  lemma FinalRoundAlone(ms: seq<Match>, f3: Match)
    requires f3.electionId == Cup && f3.roundNumber == 2
    requires ms == [Finish(Opening(), A), Finish(Second().(isActive := true), D), f3]
    ensures RoundMatches(ms, Cup, 2) == [f3]
  {
    assert ms[1..][1..] == [f3] && ms[1..][1..][1..] == [];
    assert InRound(ms[1..][1..], Cup, 2) == [f3];
    assert InRound(ms[1..], Cup, 2) == [f3];
    assert InRound(ms, Cup, 2) == [f3];
    assert SortByIndex([f3]) == [f3];
  }

  /**
   * The final (id 3, at position 2) holds its round alone, so its end
   * advances nothing and every match of the cup is finished.
   */
  lemma FinalEndsCup(cands: map<Id, Candidate>)
    requires Entered(cands)
    ensures var f := Finish(AfterSecond()[2], A);
            var ms := AfterSecond()[2 := f];
            && MatchPos(AfterSecond(), 3) == Some(2)
            && f in ms && FinishedHaveWinners(ms)
            && PlanAdvance(ms, cands, f) == FinalPlayed
            && AllFinished(ms, Cup)
  {
    var f1 := Finish(Opening(), A);
    var f2 := Finish(Second().(isActive := true), D);
    var f3 := Finish(Final(), A);
    var ms := AfterSecond()[2 := f3];
    assert AfterSecond()[0].id == 0 && AfterSecond()[1].id == 1 && AfterSecond()[2].id == 3;
    assert ms == [f1, f2, f3];
    assert forall m :: m in ms ==> m == f1 || m == f2 || m == f3;
    FinalRoundAlone(ms, f3);
    FinalIffSingleMatchRound(ms, cands, f3);
  }

  /** The cup's election record: a knockout, still running. */
  function CupElection(): Election {
    Election(Cup, "cup", Knockout, Active)
  }

  /** The store holds the cup's election, still running. */
  predicate Running(elections: map<Id, Election>) {
    Cup in elections && elections[Cup] == CupElection()
  }

  /** The generated bracket: match 1 active, match 2 idle. */
  function RoundOne(): seq<Match> {
    [Opening(), Second()]
  }

  /** Round one after match 1: A has won it and match 2 is the active match. */
  function AfterOpening(): seq<Match> {
    [Finish(Opening(), A), Second().(isActive := true)]
  }

  /** The final between A and D, created with id 3. */
  function Final(): Match {
    Match(3, Cup, [A, D], [0, 0], false, 1, 2, true, None)
  }

  /** Round one finished (A and D won) and the final waiting. */
  function AfterSecond(): seq<Match> {
    [Finish(Opening(), A), Finish(Second().(isActive := true), D), Final()]
  }

  /** A new cup: the bracket of A, B, C, D is generated. */
  method OpenCup() returns (s: Store)
    ensures fresh(s) && s.Valid()
    ensures s.matches == RoundOne() && s.votes == [] && s.nextId == 2
    ensures Running(s.elections) && s.candidates == Roster()
  {
    s := new Store(map[Cup := CupElection()], Roster());
    FourMakeTwoMatches();
    var g := s.GenerateKnockoutMatches(Cup, [A, B, C, D]);
    assert |[A, B, C, D]| == 4;
  }

  /**
   * EndMatch on an unfinished match of the running cup whose winner and
   * advancement are known beforehand: the table becomes `target`, which
   * still holds an unfinished match, so the cup keeps running.
   */
  method EndWithinCup(s: Store, id: Id, fallback: Id, w: Id, target: seq<Match>, created: bool)
    requires s.Valid() && Running(s.elections)
    requires MatchPos(s.matches, id).Some?
    requires var m := s.matches[MatchPos(s.matches, id).value]; !m.isFinished && m.electionId == Cup
    requires MatchWinner(s.votes, id, fallback) == w
    requires var f := Finish(s.matches[MatchPos(s.matches, id).value], w);
             var ms := s.matches[MatchPos(s.matches, id).value := f];
             && f in ms && FinishedHaveWinners(ms)
             && ApplyAdvance(ms, PlanAdvance(ms, AwardPoint(s.candidates, w), f), s.nextId, f) == target
             && PlanAdvance(ms, AwardPoint(s.candidates, w), f).CreateNextMatch? == created
    requires !AllFinished(target, Cup)
    modifies s
    ensures s.Valid() && Running(s.elections) && s.matches == target && s.votes == old(s.votes)
    ensures s.candidates == AwardPoint(old(s.candidates), w)
    ensures s.nextId == old(s.nextId) + (if created then 1 else 0)
  {
    assert CanEnd(s.matches, s.elections, id);
    var ok := s.EndMatch(id, fallback);
  }

  /** Match 1 ends with no votes: A, the caller's winner, wins and match 2 is activated. */
  method EndOpening(s: Store)
    requires s.Valid() && s.matches == RoundOne() && s.votes == [] && s.nextId == 2
    requires Running(s.elections) && Entered(s.candidates)
    modifies s
    ensures s.Valid() && s.matches == AfterOpening() && s.votes == [] && s.nextId == 2
    ensures Running(s.elections) && s.candidates == AwardPoint(old(s.candidates), A)
  {
    OpeningActivatesSecond(AwardPoint(s.candidates, A));
    EndWithinCup(s, 0, A, A, AfterOpening(), false);
  }

  /** Ending match 1 a second time is refused and changes nothing. */
  method EndOpeningAgain(s: Store) returns (ok: bool)
    requires s.Valid() && s.matches == AfterOpening()
    modifies s
    ensures !ok
    ensures s.matches == old(s.matches) && s.votes == old(s.votes) && s.nextId == old(s.nextId)
    ensures s.elections == old(s.elections) && s.candidates == old(s.candidates)
  {
    assert MatchPos(s.matches, 0) == Some(0);
    assert !CanEnd(s.matches, s.elections, 0);
    ok := s.EndMatch(0, B);
  }

  /** The same user votes twice in match 2: the second vote replaces the first, which keeps its id. */
  method VoteTwice(s: Store)
    requires s.Valid() && s.matches == AfterOpening() && s.votes == [] && s.nextId == 2
    requires Running(s.elections)
    modifies s
    ensures s.Valid() && s.votes == [Vote(2, 1, D, "u", 5, 6)] && s.nextId == 3
    ensures s.matches == old(s.matches) && s.elections == old(s.elections) && s.candidates == old(s.candidates)
  {
    assert MatchPos(s.matches, 1) == Some(1);
    var voted := s.VoteInMatch(1, C, "u", 5);
    assert s.votes == [Vote(2, 1, C, "u", 5, 5)];
    voted := s.VoteInMatch(1, D, "u", 6);
  }

  /** Match 2 ends: D wins on the vote against the caller's C, and the final between A and D is created. */
  method EndSecond(s: Store)
    requires s.Valid() && s.matches == AfterOpening() && s.votes == [Vote(2, 1, D, "u", 5, 6)] && s.nextId == 3
    requires Running(s.elections) && Entered(s.candidates)
    modifies s
    ensures s.Valid() && s.matches == AfterSecond() && s.votes == old(s.votes) && s.nextId == 4
    ensures Running(s.elections) && s.candidates == AwardPoint(old(s.candidates), D)
  {
    SoleVoteWins(Vote(2, 1, D, "u", 5, 6), C);
    SecondCreatesFinal(AwardPoint(s.candidates, D), s.matches);
    EndWithinCup(s, 1, C, D, AfterSecond(), true);
  }

  /** The final ends with no votes: A, the caller's winner, is champion and the cup has ended. */
  method EndFinal(s: Store)
    requires s.Valid() && s.matches == AfterSecond() && s.votes == [Vote(2, 1, D, "u", 5, 6)]
    requires Running(s.elections) && Entered(s.candidates)
    modifies s
    ensures |s.matches| == 3 && s.matches[2].winnerId == Some(A)
    ensures Cup in s.elections && s.elections[Cup].status == Ended
    ensures s.candidates == AwardPoint(old(s.candidates), A)
  {
    NoVotesInFinal();
    FinalEndsCup(AwardPoint(s.candidates, A));
    assert CanEnd(s.matches, s.elections, 3);
    var ok := s.EndMatch(3, A);
  }

  /**
   * The whole cup through the store: A wins match 1 without votes, a second
   * end of match 1 is refused, D wins match 2 on a changed vote, and A wins
   * the final, ending the election with two points.
   */
  method PlayCup() returns (champion: Option<Id>, points: int, status: ElectionStatus, refused: bool)
    ensures champion == Some(A) && points == 2 && status == Ended && refused
  {
    var s := OpenCup();
    EndOpening(s);
    var again := EndOpeningAgain(s);
    refused := !again;
    VoteTwice(s);
    EndSecond(s);
    EndFinal(s);
    champion := s.matches[2].winnerId;
    points := s.candidates[A].points;
    status := s.elections[Cup].status;
  }
}
