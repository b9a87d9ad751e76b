/** `analyze_unsolved_contest_problems` (app/analyzer.py): the titles of the
    contests the user attended without solving every problem, in history
    order, at most 5. */
module Contests {
  import opened Corpus

  /** One entry of `userContestRankingHistory`; `title` is
      `contest['contest']['title']`. */
  datatype ContestRecord = ContestRecord(attended: bool, problemsSolved: int, totalProblems: int, title: string)

  /** The fetched contest history: `ranking` is None when the
      `userContestRankingHistory` key is missing. */
  datatype ContestHistory = ContestHistory(ranking: Option<seq<ContestRecord>>)

  predicate LeftUnsolved(rec: ContestRecord)
  {
    rec.attended && rec.problemsSolved < rec.totalProblems
  }

  /** The titles of the contests left unsolved, in history order. */
  function UnsolvedTitles(records: seq<ContestRecord>): seq<string>
  {
    if records == [] then []
    else
      var rec := records[|records| - 1];
      UnsolvedTitles(records[..|records| - 1]) + (if LeftUnsolved(rec) then [rec.title] else [])
  }

  /** The positions of the contests left unsolved, in increasing order. */
  function UnsolvedPositions(records: seq<ContestRecord>): seq<nat>
  {
    if records == [] then []
    else
      UnsolvedPositions(records[..|records| - 1])
        + (if LeftUnsolved(records[|records| - 1]) then [|records| - 1] else [])
  }

  /** `analyze_unsolved_contest_problems(username, data_manager)` with the
      fetched history as input (None when the fetch failed). */
  method AnalyzeUnsolvedContestProblems(history: Option<ContestHistory>) returns (r: Result<seq<string>>)
    ensures r.Err? <==> history.None? || history.value.ranking.None?
    ensures r.Err? ==> r.message == "Could not fetch contest history."
    ensures r.Ok? ==> r.value == Take(UnsolvedTitles(history.value.ranking.value), 5)
  {
    if history.None? || history.value.ranking.None? {
      return Err("Could not fetch contest history.");
    }
    var records := history.value.ranking.value;
    var unsolved: seq<string> := [];
    var i := 0;
    while i < |records|
      invariant 0 <= i <= |records|
      invariant unsolved == UnsolvedTitles(records[..i])
    {
      var contest := records[i];
      assert records[..i + 1][..i] == records[..i];
      if contest.attended && contest.problemsSolved < contest.totalProblems {
        unsolved := unsolved + [contest.title];
      }
      i := i + 1;
    }
    assert records[..i] == records;
    r := Ok(Take(unsolved, 5));
  }

  /** The titles are exactly those of the contests left unsolved, taken in
      history order: the k-th title belongs to the k-th such contest, and no
      such contest is skipped. */
  lemma {:induction false} UnsolvedTitlesInOrder(records: seq<ContestRecord>)
    ensures |UnsolvedPositions(records)| == |UnsolvedTitles(records)|
    ensures forall k :: 0 <= k < |UnsolvedPositions(records)| ==>
              && UnsolvedPositions(records)[k] < |records|
              && LeftUnsolved(records[UnsolvedPositions(records)[k]])
              && UnsolvedTitles(records)[k] == records[UnsolvedPositions(records)[k]].title
    ensures forall k, l :: 0 <= k < l < |UnsolvedPositions(records)| ==> UnsolvedPositions(records)[k] < UnsolvedPositions(records)[l]
    ensures forall i :: 0 <= i < |records| && LeftUnsolved(records[i]) ==> i in UnsolvedPositions(records)
  {
    if records != [] {
      var init := records[..|records| - 1];
      UnsolvedTitlesInOrder(init);
      assert forall i :: 0 <= i < |init| ==> records[i] == init[i];
    }
  }

  /** At most 5 titles, each of a contest left unsolved, in history order. */
  lemma UnsolvedContestsBounded(records: seq<ContestRecord>)
    ensures |Take(UnsolvedTitles(records), 5)| <= 5
    ensures forall k :: 0 <= k < |Take(UnsolvedTitles(records), 5)| ==>
              && k < |UnsolvedPositions(records)|
              && UnsolvedPositions(records)[k] < |records|
              && Take(UnsolvedTitles(records), 5)[k] == records[UnsolvedPositions(records)[k]].title
              && LeftUnsolved(records[UnsolvedPositions(records)[k]])
  {
    UnsolvedTitlesInOrder(records);
  }
}
