/**
 * The queries and the decision of knockout advancement: which matches form
 * the finished match's round, which pair it belongs to, and whether the pair
 * yields a next-round match, finds one already there, or leaves the round to
 * activate its next idle match.
 */
module Advancement {
  import opened Models

  /** GetByIdAsync on matches: the position of the match with this id. */
  function MatchPos(ms: seq<Match>, id: Id): (r: Option<nat>)
    ensures r.Some? ==> r.value < |ms| && ms[r.value].id == id
    ensures r.Some? ==> forall j :: 0 <= j < r.value ==> ms[j].id != id
    ensures r.None? <==> forall j :: 0 <= j < |ms| ==> ms[j].id != id
  {
    if ms == [] then None
    else if ms[0].id == id then Some(0)
    else
      match MatchPos(ms[1..], id)
      case None => None
      case Some(k) => Some(k + 1)
  }

  /** Matches whose ids are pairwise distinct, as the store keeps them. */
  ghost predicate DistinctIds(ms: seq<Match>) {
    forall i, j :: 0 <= i < j < |ms| ==> ms[i].id != ms[j].id
  }

  /** With distinct ids, a stored match is found at its own position. */
  lemma MatchPosOfMember(ms: seq<Match>, m: Match)
    requires DistinctIds(ms) && m in ms
    ensures MatchPos(ms, m.id).Some? && ms[MatchPos(ms, m.id).value] == m
  {
    var i :| 0 <= i < |ms| && ms[i] == m;
    assert MatchPos(ms, m.id).Some?;
  }

  /** The matches of election `e` in round `r`, in store order. */
  function InRound(ms: seq<Match>, e: Id, r: int): seq<Match> {
    if ms == [] then []
    else (if ms[0].electionId == e && ms[0].roundNumber == r then [ms[0]] else []) + InRound(ms[1..], e, r)
  }

  /** The filter keeps exactly the matches of the election and round. */
  lemma {:induction false} InRoundMembers(ms: seq<Match>, e: Id, r: int)
    ensures forall m :: m in InRound(ms, e, r) <==> m in ms && m.electionId == e && m.roundNumber == r
  {
    if ms != [] {
      InRoundMembers(ms[1..], e, r);
      assert ms == [ms[0]] + ms[1..];
    }
  }

  lemma {:induction false} InRoundAppend(ms: seq<Match>, x: Match, e: Id, r: int)
    ensures InRound(ms + [x], e, r) == InRound(ms, e, r) + (if x.electionId == e && x.roundNumber == r then [x] else [])
  {
    var tail := if x.electionId == e && x.roundNumber == r then [x] else [];
    if ms == [] {
      assert ms + [x] == [x];
      assert InRound([x], e, r) == tail + InRound([], e, r);
    } else {
      var head := if ms[0].electionId == e && ms[0].roundNumber == r then [ms[0]] else [];
      assert (ms + [x])[0] == ms[0];
      assert (ms + [x])[1..] == ms[1..] + [x];
      InRoundAppend(ms[1..], x, e, r);
      calc {
        InRound(ms + [x], e, r);
        head + InRound(ms[1..] + [x], e, r);
        head + (InRound(ms[1..], e, r) + tail);
        (head + InRound(ms[1..], e, r)) + tail;
      }
    }
  }

  ghost predicate SortedByIndex(s: seq<Match>) {
    forall i, j :: 0 <= i < j < |s| ==> s[i].matchIndex <= s[j].matchIndex
  }

  /** Insert `m` before the first element whose index is not smaller. */
  function Insert(m: Match, s: seq<Match>): seq<Match> {
    if s == [] || m.matchIndex <= s[0].matchIndex then [m] + s
    else [s[0]] + Insert(m, s[1..])
  }

  /** Insertion adds exactly `m`, and into a sorted list it keeps the list sorted. */
  lemma {:induction false} InsertSpec(m: Match, s: seq<Match>)
    ensures |Insert(m, s)| == |s| + 1
    ensures forall x :: x in Insert(m, s) <==> x in s || x == m
    ensures SortedByIndex(s) ==> SortedByIndex(Insert(m, s))
  {
    if !(s == [] || m.matchIndex <= s[0].matchIndex) {
      var rest := Insert(m, s[1..]);
      InsertSpec(m, s[1..]);
      assert s == [s[0]] + s[1..];
      if SortedByIndex(s) {
        forall j | 0 <= j < |rest| ensures s[0].matchIndex <= rest[j].matchIndex {
          assert rest[j] in rest;
          if rest[j] != m {
            var k :| 0 <= k < |s[1..]| && s[1..][k] == rest[j];
            assert s[k + 1] == rest[j];
          }
        }
      }
    }
  }

  /** OrderBy(m => m.MatchIndex): a sort by match index, by insertion. */
  function SortByIndex(s: seq<Match>): seq<Match> {
    if s == [] then [] else Insert(s[0], SortByIndex(s[1..]))
  }

  /** The sort returns a sorted list of the same matches. */
  lemma {:induction false} SortByIndexSpec(s: seq<Match>)
    ensures SortedByIndex(SortByIndex(s))
    ensures forall x :: x in SortByIndex(s) <==> x in s
    ensures |SortByIndex(s)| == |s|
  {
    if s != [] {
      SortByIndexSpec(s[1..]);
      InsertSpec(s[0], SortByIndex(s[1..]));
      assert s == [s[0]] + s[1..];
    }
  }

  lemma {:induction false} InsertPermutes(m: Match, s: seq<Match>)
    ensures multiset(Insert(m, s)) == multiset(s) + multiset{m}
  {
    if s != [] && m.matchIndex > s[0].matchIndex {
      InsertPermutes(m, s[1..]);
      assert s == [s[0]] + s[1..];
    }
  }

  /** The sort only reorders: it keeps every match as often as it occurs. */
  lemma {:induction false} SortByIndexPermutes(s: seq<Match>)
    ensures multiset(SortByIndex(s)) == multiset(s)
  {
    if s != [] {
      SortByIndexPermutes(s[1..]);
      InsertPermutes(s[0], SortByIndex(s[1..]));
      assert s == [s[0]] + s[1..];
    }
  }

  /** currentRoundMatches: the round's matches ordered by match index. */
  function RoundMatches(ms: seq<Match>, e: Id, r: int): seq<Match> {
    SortByIndex(InRound(ms, e, r))
  }

  /** The round's matches come sorted by index, and they are exactly the stored matches of that round. */
  lemma RoundMatchesSpec(ms: seq<Match>, e: Id, r: int)
    ensures SortedByIndex(RoundMatches(ms, e, r))
    ensures forall m :: m in RoundMatches(ms, e, r) <==> m in ms && m.electionId == e && m.roundNumber == r
  {
    InRoundMembers(ms, e, r);
    SortByIndexSpec(InRound(ms, e, r));
  }

  /** ElementAtOrDefault: the element at `k`, or None out of range. */
  function ElementAtOrDefault(s: seq<Match>, k: int): (r: Option<Match>)
    ensures r.Some? <==> 0 <= k < |s|
    ensures r.Some? ==> r.value == s[k]
  {
    if 0 <= k < |s| then Some(s[k]) else None
  }

  /**
   * Integer division that truncates toward zero, as C# `/` does: the
   * quotient never has the opposite sign of `a`, and the remainder
   * `a - q * b` has the sign of `a` and is smaller than `b` in size.
   */
  function TruncDiv(a: int, b: nat): (q: int)
    requires b > 0
    ensures a >= 0 ==> q >= 0 && q * b <= a < q * b + b
    ensures a < 0 ==> q <= 0 && q * b - b < a <= q * b
  {
    if a >= 0 then
      EuclideanBounds(a, b);
      a / b
    else
      EuclideanBounds(-a, b);
      NegatedProduct(-a / b, b);
      -((-a) / b)
  }

  /** The quotient of a non-negative division times the divisor lies within one divisor below the dividend. */
  lemma EuclideanBounds(c: nat, b: nat)
    requires b > 0
    ensures c / b >= 0 && (c / b) * b <= c < (c / b) * b + b
  {
    assert c == (c / b) * b + c % b;
  }

  /** Negating a factor negates the product. */
  lemma NegatedProduct(d: int, b: int)
    ensures (-d) * b == -(d * b)
  {
  }

  /** pairIndex: the finished match's offset from the round's first index, halved. */
  function PairIndex(round: seq<Match>, finished: Match): int
    requires round != []
  {
    TruncDiv(finished.matchIndex - round[0].matchIndex, 2)
  }

  predicate IsIdle(m: Match) {
    !m.isFinished && !m.isActive
  }

  /** Position of the first match of `s` that is neither finished nor active. */
  function FirstIdleIndex(s: seq<Match>): (r: Option<nat>)
    ensures r.Some? ==> r.value < |s| && IsIdle(s[r.value])
    ensures r.Some? ==> forall j :: 0 <= j < r.value ==> !IsIdle(s[j])
    ensures r.None? <==> forall j :: 0 <= j < |s| ==> !IsIdle(s[j])
  {
    if s == [] then None
    else if IsIdle(s[0]) then Some(0)
    else
      match FirstIdleIndex(s[1..])
      case None => None
      case Some(k) => Some(k + 1)
  }

  /** Max(m => m.MatchIndex) over a non-empty list. */
  function MaxIndex(s: seq<Match>): (x: int)
    requires s != []
    ensures forall m {:trigger m in s} :: m in s ==> m.matchIndex <= x
    ensures exists m {:trigger m in s} :: m in s && m.matchIndex == x
  {
    assert s[0] in s;
    if |s| == 1 then s[0].matchIndex
    else
      var rest := MaxIndex(s[1..]);
      assert forall m :: m in s <==> m == s[0] || m in s[1..];
      if s[0].matchIndex >= rest then s[0].matchIndex else rest
  }

  /** Some match of `s` has both winners among its participants. */
  predicate HasMatchWith(s: seq<Match>, w1: Id, w2: Id) {
    exists m :: m in s && w1 in m.candidates && w2 in m.candidates
  }

  /** Index for a new match of a round: one past the round's largest, or 1 for an empty round. */
  function NextMatchIndex(s: seq<Match>): int {
    if s == [] then 1 else MaxIndex(s) + 1
  }

  /** What advancing the winner of a finished knockout match does. */
  datatype AdvanceStep =
    | FinalPlayed                          // the round holds a single match
    | PairPending(next: Option<Match>)     // pair incomplete: activate this idle match of the round, if any
    | WinnerMissing                        // a pair winner is not a stored candidate
    | NextMatchExists                      // the next round already pairs both winners
    | CreateNextMatch(winner1: Id, winner2: Id, matchIndex: int)

  /** Every finished match records its winner. */
  ghost predicate FinishedHaveWinners(ms: seq<Match>) {
    forall m :: m in ms && m.isFinished ==> m.winnerId.Some?
  }

  /** The two slots of the finished match's pair in the sorted round (ElementAtOrDefault). */
  function PairSlots(round: seq<Match>, finished: Match): (Option<Match>, Option<Match>)
    requires round != []
  {
    var pairIndex := PairIndex(round, finished);
    (ElementAtOrDefault(round, pairIndex * 2), ElementAtOrDefault(round, pairIndex * 2 + 1))
  }

  /** Both slots of the pair hold finished matches. */
  predicate PairComplete(slots: (Option<Match>, Option<Match>)) {
    slots.0.Some? && slots.1.Some? && slots.0.value.isFinished && slots.1.value.isFinished
  }

  /** The decision once the pair's winners w1 and w2 are known; `next` is the next round. */
  function WinnersStep(cands: map<Id, Candidate>, w1: Id, w2: Id, next: seq<Match>): AdvanceStep {
    if w1 !in cands || w2 !in cands then WinnerMissing
    else if HasMatchWith(next, w1, w2) then NextMatchExists
    else CreateNextMatch(w1, w2, NextMatchIndex(next))
  }

  /** The decision while the pair is incomplete: the round's first idle match, if any. */
  function PendingStep(round: seq<Match>): AdvanceStep {
    match FirstIdleIndex(round)
    case None => PairPending(None)
    case Some(k) => PairPending(Some(round[k]))
  }

  /**
   * The decision taken on the sorted `round` of the finished match and the
   * matches `next` of the following round.
   */
  function Decide(round: seq<Match>, finished: Match, cands: map<Id, Candidate>, next: seq<Match>): AdvanceStep
    requires finished in round
    requires FinishedHaveWinners(round)
  {
    if |round| == 1 then FinalPlayed
    else
      var slots := PairSlots(round, finished);
      if PairComplete(slots) then
        assert slots.0.value in round && slots.1.value in round;
        WinnersStep(cands, slots.0.value.winnerId.value, slots.1.value.winnerId.value, next)
      else
        PendingStep(round)
  }

  /** A match of the store is a match of its own round. */
  lemma InOwnRound(ms: seq<Match>, m: Match)
    requires m in ms
    ensures m in RoundMatches(ms, m.electionId, m.roundNumber)
  {
    RoundMatchesSpec(ms, m.electionId, m.roundNumber);
  }

  /** The finished matches of a round are finished matches of the store, so they have winners. */
  lemma RoundHasWinners(ms: seq<Match>, e: Id, r: int)
    requires FinishedHaveWinners(ms)
    ensures FinishedHaveWinners(RoundMatches(ms, e, r))
  {
    RoundMatchesSpec(ms, e, r);
  }

  /**
   * The decision of AdvanceWinnerInKnockoutAsync for `finished`, read off
   * the store `ms` (in which `finished` is already marked finished) and the
   * stored candidates.
   */
  function PlanAdvance(ms: seq<Match>, cands: map<Id, Candidate>, finished: Match): AdvanceStep
    requires finished in ms
    requires FinishedHaveWinners(ms)
  {
    InOwnRound(ms, finished);
    RoundHasWinners(ms, finished.electionId, finished.roundNumber);
    Decide(RoundMatches(ms, finished.electionId, finished.roundNumber), finished, cands,
           InRound(ms, finished.electionId, finished.roundNumber + 1))
  }

  /** The match created for two pair winners. */
  function NextRoundMatch(id: Id, finished: Match, w1: Id, w2: Id, matchIndex: int): Match {
    Match(id, finished.electionId, [w1, w2], [0, 0], false, matchIndex, finished.roundNumber + 1, true, None)
  }

  /** Set IsActive on the match with this id; nothing else changes. */
  function Activate(ms: seq<Match>, id: Id): (r: seq<Match>)
    ensures |r| == |ms|
    ensures forall j :: 0 <= j < |ms| && ms[j].id != id ==> r[j] == ms[j]
    ensures MatchPos(ms, id).Some? ==> r[MatchPos(ms, id).value] == ms[MatchPos(ms, id).value].(isActive := true)
  {
    match MatchPos(ms, id)
    case None => ms
    case Some(i) => ms[i := ms[i].(isActive := true)]
  }

  /** The store after the step: a match appended, one match activated, or unchanged. */
  function ApplyAdvance(ms: seq<Match>, step: AdvanceStep, freshId: Id, finished: Match): seq<Match> {
    match step
    case CreateNextMatch(w1, w2, idx) => ms + [NextRoundMatch(freshId, finished, w1, w2, idx)]
    case PairPending(Some(m)) => Activate(ms, m.id)
    case _ => ms
  }

  /** PlanAdvance is the decision taken on the finished match's sorted round and the next round. */
  lemma PlanAdvanceDecides(ms: seq<Match>, cands: map<Id, Candidate>, finished: Match)
    requires finished in ms && FinishedHaveWinners(ms)
    ensures var round := RoundMatches(ms, finished.electionId, finished.roundNumber);
            && finished in round && FinishedHaveWinners(round)
            && PlanAdvance(ms, cands, finished)
               == Decide(round, finished, cands, InRound(ms, finished.electionId, finished.roundNumber + 1))
  {
    InOwnRound(ms, finished);
    RoundHasWinners(ms, finished.electionId, finished.roundNumber);
  }

  /** A decision to create a match comes from a complete pair whose winners are stored candidates not yet paired in `next`. */
  lemma DecideCreates(round: seq<Match>, finished: Match, cands: map<Id, Candidate>, next: seq<Match>,
                      w1: Id, w2: Id, idx: int)
    requires finished in round && FinishedHaveWinners(round)
    requires Decide(round, finished, cands, next) == CreateNextMatch(w1, w2, idx)
    ensures |round| != 1 && PairComplete(PairSlots(round, finished))
    ensures PairSlots(round, finished).0.value.winnerId == Some(w1)
    ensures PairSlots(round, finished).1.value.winnerId == Some(w2)
    ensures w1 in cands && w2 in cands && !HasMatchWith(next, w1, w2) && idx == NextMatchIndex(next)
  {
    var slots := PairSlots(round, finished);
    assert slots.0.Some? ==> slots.0.value in round;
    assert slots.1.Some? ==> slots.1.value in round;
  }

  /** A pending decision names the round's first idle match. */
  lemma DecidePending(round: seq<Match>, finished: Match, cands: map<Id, Candidate>, next: seq<Match>,
                      m: Option<Match>)
    requires finished in round && FinishedHaveWinners(round)
    requires Decide(round, finished, cands, next) == PairPending(m)
    ensures m == match FirstIdleIndex(round) case None => None case Some(k) => Some(round[k])
  {
    var slots := PairSlots(round, finished);
    assert slots.0.Some? ==> slots.0.value in round;
    assert slots.1.Some? ==> slots.1.value in round;
  }

  /** The final is detected by its round holding exactly one match. */
  lemma FinalIffSingleMatchRound(ms: seq<Match>, cands: map<Id, Candidate>, finished: Match)
    requires finished in ms && FinishedHaveWinners(ms)
    ensures PlanAdvance(ms, cands, finished) == FinalPlayed
        <==> |RoundMatches(ms, finished.electionId, finished.roundNumber)| == 1
  {
    PlanAdvanceDecides(ms, cands, finished);
  }

  /** The round's first match has the smallest index, so the pair offset is never negative. */
  lemma PairOffsetNonNegative(ms: seq<Match>, finished: Match)
    requires finished in ms
    ensures var round := RoundMatches(ms, finished.electionId, finished.roundNumber);
            round != [] && round[0].matchIndex <= finished.matchIndex
  {
    var round := RoundMatches(ms, finished.electionId, finished.roundNumber);
    RoundMatchesSpec(ms, finished.electionId, finished.roundNumber);
    assert finished in round;
    var k :| 0 <= k < |round| && round[k] == finished;
    if k > 0 {
      assert round[0].matchIndex <= round[k].matchIndex;
    }
  }

  /** The pair behind a CreateNextMatch decision: its winners are the step's. */
  lemma CreatePlanPair(ms: seq<Match>, cands: map<Id, Candidate>, finished: Match, w1: Id, w2: Id, idx: int)
    requires finished in ms && FinishedHaveWinners(ms)
    requires PlanAdvance(ms, cands, finished) == CreateNextMatch(w1, w2, idx)
    ensures var round := RoundMatches(ms, finished.electionId, finished.roundNumber);
            && finished in round && |round| != 1 && PairComplete(PairSlots(round, finished))
            && PairSlots(round, finished).0.value.winnerId == Some(w1)
            && PairSlots(round, finished).1.value.winnerId == Some(w2)
            && w1 in cands && w2 in cands
    ensures var next := InRound(ms, finished.electionId, finished.roundNumber + 1);
            !HasMatchWith(next, w1, w2) && idx == NextMatchIndex(next)
  {
    PlanAdvanceDecides(ms, cands, finished);
    DecideCreates(RoundMatches(ms, finished.electionId, finished.roundNumber), finished, cands,
                  InRound(ms, finished.electionId, finished.roundNumber + 1), w1, w2, idx);
  }

  /**
   * A created next-round match pairs the winners of two finished matches of
   * the round, both stored candidates, that no match of the next round
   * already pairs, and its index is larger than every index in that round.
   */
  lemma CreatedMatchPairsWinners(ms: seq<Match>, cands: map<Id, Candidate>, finished: Match,
                                 w1: Id, w2: Id, idx: int)
    requires finished in ms && FinishedHaveWinners(ms)
    requires PlanAdvance(ms, cands, finished) == CreateNextMatch(w1, w2, idx)
    ensures exists m1, m2 :: m1 in ms && m2 in ms
              && m1.electionId == finished.electionId && m1.roundNumber == finished.roundNumber
              && m2.electionId == finished.electionId && m2.roundNumber == finished.roundNumber
              && m1.isFinished && m2.isFinished
              && m1.winnerId == Some(w1) && m2.winnerId == Some(w2)
    ensures w1 in cands && w2 in cands
    ensures forall m :: m in ms && m.electionId == finished.electionId && m.roundNumber == finished.roundNumber + 1
              ==> !(w1 in m.candidates && w2 in m.candidates) && m.matchIndex < idx
    ensures (forall m :: m in ms && m.electionId == finished.electionId ==> m.roundNumber != finished.roundNumber + 1)
              ==> idx == 1
  {
    var e, r := finished.electionId, finished.roundNumber;
    CreatePlanPair(ms, cands, finished, w1, w2, idx);
    var round := RoundMatches(ms, e, r);
    var slots := PairSlots(round, finished);
    RoundMatchesSpec(ms, e, r);
    assert slots.0.value in round && slots.1.value in round;
    NextRoundFacts(ms, e, r + 1, w1, w2);
  }

  /**
   * Facts about a round that has no match pairing w1 and w2: no stored match
   * of it pairs them, its next index is above all of its indices, and an
   * empty round starts at index 1.
   */
  lemma NextRoundFacts(ms: seq<Match>, e: Id, r: int, w1: Id, w2: Id)
    requires !HasMatchWith(InRound(ms, e, r), w1, w2)
    ensures forall m :: m in ms && m.electionId == e && m.roundNumber == r
              ==> !(w1 in m.candidates && w2 in m.candidates) && m.matchIndex < NextMatchIndex(InRound(ms, e, r))
    ensures (forall m :: m in ms && m.electionId == e ==> m.roundNumber != r) ==> NextMatchIndex(InRound(ms, e, r)) == 1
  {
    var next := InRound(ms, e, r);
    InRoundMembers(ms, e, r);
    forall m | m in ms && m.electionId == e && m.roundNumber == r
      ensures !(w1 in m.candidates && w2 in m.candidates) && m.matchIndex < NextMatchIndex(next)
    {
      assert m in next;
    }
    if forall m :: m in ms && m.electionId == e ==> m.roundNumber != r {
      if next != [] {
        assert false;
      }
    }
  }

  /** In a list sorted by index, the first idle match has the lowest index among idle ones. */
  lemma FirstIdleIsLowest(s: seq<Match>)
    requires SortedByIndex(s)
    ensures FirstIdleIndex(s).Some? ==>
              forall j :: 0 <= j < |s| && IsIdle(s[j]) ==> s[FirstIdleIndex(s).value].matchIndex <= s[j].matchIndex
  {
  }

  /** An incomplete pair leads to the first idle match of the sorted round. */
  lemma PendingPicksFirstIdle(ms: seq<Match>, cands: map<Id, Candidate>, finished: Match, next: Option<Match>)
    requires finished in ms && FinishedHaveWinners(ms)
    requires PlanAdvance(ms, cands, finished) == PairPending(next)
    ensures var round := RoundMatches(ms, finished.electionId, finished.roundNumber);
            next == match FirstIdleIndex(round) case None => None case Some(k) => Some(round[k])
  {
    PlanAdvanceDecides(ms, cands, finished);
    DecidePending(RoundMatches(ms, finished.electionId, finished.roundNumber), finished, cands,
                  InRound(ms, finished.electionId, finished.roundNumber + 1), next);
  }

  /**
   * When the pair is incomplete, the match activated is an idle match of the
   * same round with the lowest index among the round's idle matches; and
   * when nothing is activated, the round has no idle match.
   */
  lemma ActivatedMatchIsLowestIdle(ms: seq<Match>, cands: map<Id, Candidate>, finished: Match, next: Option<Match>)
    requires finished in ms && FinishedHaveWinners(ms)
    requires PlanAdvance(ms, cands, finished) == PairPending(next)
    ensures next.Some? ==> var m := next.value;
              && m in ms && m.electionId == finished.electionId && m.roundNumber == finished.roundNumber
              && IsIdle(m)
              && forall m' :: (m' in ms && m'.electionId == finished.electionId
                   && m'.roundNumber == finished.roundNumber && IsIdle(m')) ==> m.matchIndex <= m'.matchIndex
    ensures next.None? ==> forall m' :: (m' in ms && m'.electionId == finished.electionId
              && m'.roundNumber == finished.roundNumber) ==> !IsIdle(m')
  {
    var round := RoundMatches(ms, finished.electionId, finished.roundNumber);
    PendingPicksFirstIdle(ms, cands, finished, next);
    RoundMatchesSpec(ms, finished.electionId, finished.roundNumber);
    FirstIdleIsLowest(round);
    var k := FirstIdleIndex(round);
    if k.Some? {
      assert round[k.value] in round;
    }
    forall m' | m' in ms && m'.electionId == finished.electionId && m'.roundNumber == finished.roundNumber
      ensures k.None? ==> !IsIdle(m')
      ensures k.Some? && IsIdle(m') ==> round[k.value].matchIndex <= m'.matchIndex
    {
      assert m' in round;
    }
  }

  /** Round membership is unchanged by adding a match of another round or election. */
  lemma RoundMatchesAppendOther(ms: seq<Match>, x: Match, e: Id, r: int)
    requires x.electionId != e || x.roundNumber != r
    ensures RoundMatches(ms + [x], e, r) == RoundMatches(ms, e, r)
  {
    InRoundAppend(ms, x, e, r);
    var f := InRound(ms, e, r);
    assert f + [] == f;
    assert InRound(ms + [x], e, r) == f;
  }

  /**
   * The decision once both matches of the finished match's pair are
   * finished: it depends only on their winners and the next round.
   */
  lemma DecideCompletePair(round: seq<Match>, finished: Match, cands: map<Id, Candidate>, next: seq<Match>)
    requires finished in round && FinishedHaveWinners(round) && |round| != 1
    requires PairComplete(PairSlots(round, finished))
    ensures var slots := PairSlots(round, finished);
            && slots.0.value.winnerId.Some? && slots.1.value.winnerId.Some?
            && Decide(round, finished, cands, next)
               == WinnersStep(cands, slots.0.value.winnerId.value, slots.1.value.winnerId.value, next)
  {
    var slots := PairSlots(round, finished);
    assert slots.0.value in round && slots.1.value in round;
  }

  /** The decision while the pair is incomplete: the round's first idle match is to be activated. */
  lemma DecideIncompletePair(round: seq<Match>, finished: Match, cands: map<Id, Candidate>, next: seq<Match>)
    requires finished in round && FinishedHaveWinners(round) && |round| != 1
    requires !PairComplete(PairSlots(round, finished))
    ensures Decide(round, finished, cands, next) == PendingStep(round)
  {
  }

  /** PlanAdvance on a complete pair, in terms of the store. */
  lemma PlanOfCompletePair(ms: seq<Match>, cands: map<Id, Candidate>, finished: Match,
                           round: seq<Match>, slots: (Option<Match>, Option<Match>))
    requires finished in ms && FinishedHaveWinners(ms)
    requires round == RoundMatches(ms, finished.electionId, finished.roundNumber)
    requires finished in round && |round| != 1
    requires slots == PairSlots(round, finished) && PairComplete(slots)
    ensures slots.0.value.winnerId.Some? && slots.1.value.winnerId.Some?
    ensures PlanAdvance(ms, cands, finished)
              == WinnersStep(cands, slots.0.value.winnerId.value, slots.1.value.winnerId.value,
                             InRound(ms, finished.electionId, finished.roundNumber + 1))
  {
    PlanAdvanceDecides(ms, cands, finished);
    DecideCompletePair(round, finished, cands, InRound(ms, finished.electionId, finished.roundNumber + 1));
  }

  /** PlanAdvance on an incomplete pair, in terms of the store. */
  lemma PlanOfIncompletePair(ms: seq<Match>, cands: map<Id, Candidate>, finished: Match,
                             round: seq<Match>, slots: (Option<Match>, Option<Match>))
    requires finished in ms && FinishedHaveWinners(ms)
    requires round == RoundMatches(ms, finished.electionId, finished.roundNumber)
    requires finished in round && |round| != 1
    requires slots == PairSlots(round, finished) && !PairComplete(slots)
    ensures PlanAdvance(ms, cands, finished) == PendingStep(round)
  {
    PlanAdvanceDecides(ms, cands, finished);
    DecideIncompletePair(round, finished, cands, InRound(ms, finished.electionId, finished.roundNumber + 1));
  }

  /** A finished match is neither activated nor moved by the advancement step. */
  lemma ApplyAdvanceKeepsFinished(ms: seq<Match>, cands: map<Id, Candidate>, finished: Match, freshId: Id, i: nat)
    requires finished in ms && FinishedHaveWinners(ms) && DistinctIds(ms)
    requires i < |ms| && ms[i].isFinished
    ensures var r := ApplyAdvance(ms, PlanAdvance(ms, cands, finished), freshId, finished);
            i < |r| && r[i] == ms[i]
  {
    var step := PlanAdvance(ms, cands, finished);
    if step.PairPending? && step.next.Some? {
      ActivatedMatchIsLowestIdle(ms, cands, finished, step.next);
      var m := step.next.value;
      var j :| 0 <= j < |ms| && ms[j] == m;
      assert j != i;
      assert ms[i].id != m.id;
    }
  }

  /** The store after a decision taken on the pair's winners. */
  lemma ApplyWinnersStep(ms: seq<Match>, cands: map<Id, Candidate>, w1: Id, w2: Id, next: seq<Match>,
                         freshId: Id, finished: Match)
    requires w1 in cands && w2 in cands
    ensures ApplyAdvance(ms, WinnersStep(cands, w1, w2, next), freshId, finished)
              == if HasMatchWith(next, w1, w2) then ms
                 else ms + [NextRoundMatch(freshId, finished, w1, w2, NextMatchIndex(next))]
  {
  }

  /** The store after a decision taken on an incomplete pair. */
  lemma ApplyPendingStep(ms: seq<Match>, round: seq<Match>, freshId: Id, finished: Match)
    ensures ApplyAdvance(ms, PendingStep(round), freshId, finished)
              == match FirstIdleIndex(round)
                 case None => ms
                 case Some(k) => Activate(ms, round[k].id)
  {
  }

  /** Appending a match keeps every finished match's winner recorded, provided the new one is unfinished. */
  lemma AppendKeepsWinners(ms: seq<Match>, x: Match)
    requires FinishedHaveWinners(ms) && !x.isFinished
    ensures FinishedHaveWinners(ms + [x])
  {
    forall m | m in ms + [x] && m.isFinished ensures m.winnerId.Some? {
      assert m in ms || m == x;
    }
  }

  /** Appending a match of the next round that pairs the two winners makes the decision NextMatchExists. */
  lemma AppendedPairFound(ms: seq<Match>, cands: map<Id, Candidate>, finished: Match, w1: Id, w2: Id, x: Match)
    requires finished in ms && FinishedHaveWinners(ms)
    requires var round := RoundMatches(ms, finished.electionId, finished.roundNumber);
             && finished in round && |round| != 1 && PairComplete(PairSlots(round, finished))
             && PairSlots(round, finished).0.value.winnerId == Some(w1)
             && PairSlots(round, finished).1.value.winnerId == Some(w2)
    requires w1 in cands && w2 in cands
    requires x == NextRoundMatch(x.id, finished, w1, w2, x.matchIndex)
    ensures finished in ms + [x] && FinishedHaveWinners(ms + [x])
    ensures PlanAdvance(ms + [x], cands, finished) == NextMatchExists
  {
    var e, r := finished.electionId, finished.roundNumber;
    var ms' := ms + [x];
    var round := RoundMatches(ms, e, r);
    AppendKeepsWinners(ms, x);
    RoundMatchesAppendOther(ms, x, e, r);
    var next' := InRound(ms', e, r + 1);
    assert HasMatchWith(next', w1, w2) by {
      InRoundAppend(ms, x, e, r + 1);
      assert x in next';
    }
    assert WinnersStep(cands, w1, w2, next') == NextMatchExists;
    PlanAdvanceDecides(ms', cands, finished);
    assert PlanAdvance(ms', cands, finished) == Decide(round, finished, cands, next');
    DecideCompletePair(round, finished, cands, next');
    assert Decide(round, finished, cands, next') == WinnersStep(cands, w1, w2, next');
  }

  /**
   * Advancing the same finished match again after a next-round match was
   * created finds that match and creates nothing.
   */
  lemma AdvanceAgainFindsCreatedMatch(ms: seq<Match>, cands: map<Id, Candidate>, finished: Match,
                                      w1: Id, w2: Id, idx: int, freshId: Id)
    requires finished in ms && FinishedHaveWinners(ms)
    requires PlanAdvance(ms, cands, finished) == CreateNextMatch(w1, w2, idx)
    ensures ApplyAdvance(ms, CreateNextMatch(w1, w2, idx), freshId, finished)
              == ms + [NextRoundMatch(freshId, finished, w1, w2, idx)]
    ensures var ms' := ms + [NextRoundMatch(freshId, finished, w1, w2, idx)];
            finished in ms' && FinishedHaveWinners(ms') && PlanAdvance(ms', cands, finished) == NextMatchExists
  {
    CreatePlanPair(ms, cands, finished, w1, w2, idx);
    AppendedPairFound(ms, cands, finished, w1, w2, NextRoundMatch(freshId, finished, w1, w2, idx));
  }
}
