/**
 * Winner resolution of a finished match: the match's votes are grouped by
 * candidate (groups keep the order in which each candidate first received a
 * vote), the groups are ranked by count with a stable descending sort, and
 * the first group wins.  So the winner has the most votes, and a tie goes to
 * the tied candidate whose first vote comes earliest.
 */
module Tally {
  import opened Models

  /** Number of votes for candidate `c`. */
  function VoteCount(vs: seq<Vote>, c: Id): nat {
    if vs == [] then 0
    else VoteCount(vs[..|vs| - 1], c) + (if vs[|vs| - 1].candidateId == c then 1 else 0)
  }

  /** A candidate has votes exactly when some vote names it. */
  lemma {:induction false} VoteCountPositive(vs: seq<Vote>, c: Id)
    ensures VoteCount(vs, c) > 0 <==> exists i :: 0 <= i < |vs| && vs[i].candidateId == c
  {
    if vs != [] {
      var p := vs[..|vs| - 1];
      VoteCountPositive(p, c);
      if VoteCount(p, c) > 0 {
        var i :| 0 <= i < |p| && p[i].candidateId == c;
        assert vs[i].candidateId == c;
      }
      if exists i :: 0 <= i < |vs| && vs[i].candidateId == c {
        var i :| 0 <= i < |vs| && vs[i].candidateId == c;
        if i < |p| {
          assert p[i].candidateId == c;
        }
      }
    }
  }

  /** Position of the first vote for `c`. */
  function FirstVoteAt(vs: seq<Vote>, c: Id): (k: nat)
    requires VoteCount(vs, c) > 0
    ensures k < |vs| && vs[k].candidateId == c
    ensures forall j :: 0 <= j < k ==> vs[j].candidateId != c
  {
    var p := vs[..|vs| - 1];
    if VoteCount(p, c) > 0 then
      FirstVoteAt(p, c)
    else
      VoteCountPositive(p, c);
      |vs| - 1
  }

  /** The keys of GroupBy(CandidateId): each voted candidate once, in order of first vote. */
  function GroupKeys(vs: seq<Vote>): (ks: seq<Id>)
    ensures forall c :: c in ks <==> VoteCount(vs, c) > 0
    ensures forall i, j :: 0 <= i < j < |ks| ==> ks[i] != ks[j]
  {
    if vs == [] then []
    else
      var ks' := GroupKeys(vs[..|vs| - 1]);
      var c := vs[|vs| - 1].candidateId;
      if c in ks' then ks' else ks' + [c]
  }

  /** The groups come in the order of their candidates' first votes. */
  lemma {:induction false} GroupKeysInFirstVoteOrder(vs: seq<Vote>, i: nat, j: nat)
    requires i < j < |GroupKeys(vs)|
    ensures FirstVoteAt(vs, GroupKeys(vs)[i]) < FirstVoteAt(vs, GroupKeys(vs)[j])
  {
    var p := vs[..|vs| - 1];
    var ks' := GroupKeys(p);
    var ks := GroupKeys(vs);
    assert ks[i] in ks && ks[j] in ks;
    if j < |ks'| {
      assert ks[i] == ks'[i] && ks[j] == ks'[j];
      assert ks'[i] in ks' && ks'[j] in ks';
      GroupKeysInFirstVoteOrder(p, i, j);
    } else {
      assert ks[i] == ks'[i] && ks'[i] in ks';
      assert FirstVoteAt(vs, ks[i]) == FirstVoteAt(p, ks[i]);
      assert VoteCount(p, ks[j]) == 0;
    }
  }

  /** One row of Select(g => new { CandidateId = g.Key, Count = g.Count() }). */
  datatype VoteGroup = VoteGroup(candidateId: Id, count: nat)

  /** GroupBy followed by Select: every voted candidate with its count, in first-vote order. */
  function Groups(vs: seq<Vote>): (gs: seq<VoteGroup>)
    ensures |gs| == |GroupKeys(vs)|
    ensures forall i :: 0 <= i < |gs| ==> gs[i] == VoteGroup(GroupKeys(vs)[i], VoteCount(vs, GroupKeys(vs)[i]))
  {
    var ks := GroupKeys(vs);
    seq(|ks|, i requires 0 <= i < |ks| => VoteGroup(ks[i], VoteCount(vs, ks[i])))
  }

  /** The sum of the groups' counts. */
  function TotalCount(gs: seq<VoteGroup>): nat {
    if gs == [] then 0 else TotalCount(gs[..|gs| - 1]) + gs[|gs| - 1].count
  }

  /** The number of votes for the candidates `ks`, added up. */
  function KeyTotal(vs: seq<Vote>, ks: seq<Id>): nat {
    if ks == [] then 0 else KeyTotal(vs, ks[..|ks| - 1]) + VoteCount(vs, ks[|ks| - 1])
  }

  /** One more vote adds one to the total of distinct keys exactly when it names one of them. */
  lemma {:induction false} KeyTotalAppendVote(p: seq<Vote>, v: Vote, ks: seq<Id>)
    requires forall i, j :: 0 <= i < j < |ks| ==> ks[i] != ks[j]
    ensures KeyTotal(p + [v], ks) == KeyTotal(p, ks) + (if v.candidateId in ks then 1 else 0)
  {
    if ks != [] {
      var front := ks[..|ks| - 1];
      var k := ks[|ks| - 1];
      KeyTotalAppendVote(p, v, front);
      assert (p + [v])[..|p + [v]| - 1] == p;
      assert ks == front + [k];
    }
  }

  /** Every vote is counted once: the keys' totals add up to the number of votes. */
  lemma {:induction false} KeyTotalCountsVotes(vs: seq<Vote>)
    ensures KeyTotal(vs, GroupKeys(vs)) == |vs|
  {
    if vs != [] {
      var p := vs[..|vs| - 1];
      var v := vs[|vs| - 1];
      var ks' := GroupKeys(p);
      assert vs == p + [v];
      KeyTotalCountsVotes(p);
      KeyTotalAppendVote(p, v, ks');
      if v.candidateId !in ks' {
        var ks := ks' + [v.candidateId];
        assert ks[..|ks| - 1] == ks';
        assert VoteCount(p, v.candidateId) == 0;
      }
    }
  }

  /** Groups built key by key have the keys' total. */
  lemma {:induction false} TotalOfGroups(vs: seq<Vote>, ks: seq<Id>, gs: seq<VoteGroup>)
    requires |gs| == |ks|
    requires forall i :: 0 <= i < |gs| ==> gs[i] == VoteGroup(ks[i], VoteCount(vs, ks[i]))
    ensures TotalCount(gs) == KeyTotal(vs, ks)
  {
    if gs != [] {
      TotalOfGroups(vs, ks[..|ks| - 1], gs[..|gs| - 1]);
    }
  }

  /** No vote is lost or counted twice: the group counts add up to the number of votes. */
  lemma GroupsCountEveryVote(vs: seq<Vote>)
    ensures TotalCount(Groups(vs)) == |vs|
  {
    TotalOfGroups(vs, GroupKeys(vs), Groups(vs));
    KeyTotalCountsVotes(vs);
  }

  /**
   * The position First() reads after a stable OrderByDescending(Count): a
   * group with the largest count, and the earliest such group.
   */
  function TopIndex(gs: seq<VoteGroup>): (k: nat)
    requires |gs| > 0
    ensures k < |gs|
    ensures forall j :: 0 <= j < |gs| ==> gs[j].count <= gs[k].count
    ensures forall j :: 0 <= j < k ==> gs[j].count < gs[k].count
  {
    if |gs| == 1 then 0
    else
      var k := TopIndex(gs[..|gs| - 1]);
      if gs[|gs| - 1].count > gs[k].count then |gs| - 1 else k
  }

  /** voteCounts.Any() ? voteCounts.First().CandidateId : (no winner from votes). */
  function TallyWinner(vs: seq<Vote>): (w: Option<Id>)
    ensures w.None? <==> vs == []
  {
    var gs := Groups(vs);
    if vs != [] then
      VoteCountPositive(vs, vs[|vs| - 1].candidateId);
      assert vs[|vs| - 1].candidateId in GroupKeys(vs);
      Some(gs[TopIndex(gs)].candidateId)
    else
      None
  }

  /**
   * The winner the source promises: it has votes, no candidate has more, and
   * every candidate with as many votes received its first vote no earlier.
   */
  ghost predicate IsTallyWinner(vs: seq<Vote>, w: Id) {
    && VoteCount(vs, w) > 0
    && (forall c :: VoteCount(vs, c) <= VoteCount(vs, w))
    && (forall c :: VoteCount(vs, c) == VoteCount(vs, w) ==> FirstVoteAt(vs, w) <= FirstVoteAt(vs, c))
  }

  /** TallyWinner picks exactly the candidate IsTallyWinner describes. */
  lemma TallyWinnerIsMostVotedEarliest(vs: seq<Vote>, w: Id)
    ensures TallyWinner(vs) == Some(w) <==> IsTallyWinner(vs, w)
  {
    if vs != [] {
      var ks := GroupKeys(vs);
      var gs := Groups(vs);
      VoteCountPositive(vs, vs[|vs| - 1].candidateId);
      assert vs[|vs| - 1].candidateId in ks;
      var t := TopIndex(gs);
      var top := ks[t];
      assert TallyWinner(vs) == Some(top);
      assert ks[t] in ks;
      assert VoteCount(vs, top) > 0;
      forall c ensures VoteCount(vs, c) <= VoteCount(vs, top) {
        if VoteCount(vs, c) > 0 {
          assert c in ks;
          var j :| 0 <= j < |ks| && ks[j] == c;
          assert gs[j].count <= gs[t].count;
        }
      }
      forall c | VoteCount(vs, c) == VoteCount(vs, top)
        ensures FirstVoteAt(vs, top) <= FirstVoteAt(vs, c)
      {
        assert c in ks;
        var j :| 0 <= j < |ks| && ks[j] == c;
        if t < j {
          GroupKeysInFirstVoteOrder(vs, t, j);
        }
      }
      assert IsTallyWinner(vs, top);
      if IsTallyWinner(vs, w) {
        assert VoteCount(vs, w) == VoteCount(vs, top);
        var fw := FirstVoteAt(vs, w);
        assert fw == FirstVoteAt(vs, top);
        assert vs[fw].candidateId == w && vs[fw].candidateId == top;
      }
    }
  }

  /** A winner drawn from the votes is a candidate somebody voted for. */
  lemma TallyWinnerWasVotedFor(vs: seq<Vote>)
    requires vs != []
    ensures exists i :: 0 <= i < |vs| && vs[i].candidateId == TallyWinner(vs).value
  {
    TallyWinnerIsMostVotedEarliest(vs, TallyWinner(vs).value);
    VoteCountPositive(vs, TallyWinner(vs).value);
  }
}
