/** `find_nemesis_problems` (app/analyzer.py): the slugs of the fold that
    took more than 2 attempts or were never accepted, sorted by attempts
    (highest first, with Python's stable `sorted`, so ties keep the order
    of first appearance in the feed), top 5. */
module Nemesis {
  import opened Corpus
  import opened Submissions

  /** A (slug, attempts) item of the resulting dict. */
  type Entry = (string, nat)

  /** "took more than 2 attempts OR is unsolved" */
  predicate IsNemesis(state: AttemptState)
  {
    state.attempts > 2 || !state.accepted
  }

  /** The dict comprehension over the fold, in its key order. */
  function Candidates(order: seq<string>, counts: map<string, AttemptState>): seq<Entry>
    requires forall slug :: slug in order ==> slug in counts
  {
    if order == [] then []
    else
      var rest := Candidates(order[1..], counts);
      if IsNemesis(counts[order[0]]) then [(order[0], counts[order[0]].attempts)] + rest else rest
  }

  /** Places `x` before the first entry with no more attempts than it. */
  function Insert(x: Entry, s: seq<Entry>): seq<Entry>
  {
    if s == [] then [x]
    else if x.1 >= s[0].1 then [x] + s
    else [s[0]] + Insert(x, s[1..])
  }

  /** `sorted(items, key=attempts, reverse=True)`, a stable insertion sort. */
  function SortByAttempts(s: seq<Entry>): seq<Entry>
  {
    if s == [] then [] else Insert(s[0], SortByAttempts(s[1..]))
  }

  /** What `find_nemesis_problems` returns for a non-empty feed. */
  function TopNemesis(subs: seq<Submission>): seq<Entry>
  {
    Take(SortByAttempts(Candidates(FirstSeen(subs), Tallies(subs))), 5)
  }

  /** `find_nemesis_problems(username, data_manager)` with the fetched feed
      as input: an empty feed is the error case. */
  method FindNemesisProblems(subs: seq<Submission>) returns (r: Result<seq<Entry>>)
    ensures subs == [] <==> r.Err?
    ensures r.Err? ==> r.message == "Could not fetch submissions."
    ensures r.Ok? ==> r.value == TopNemesis(subs)
  {
    if subs == [] {
      return Err("Could not fetch submissions.");
    }
    var order, counts := Tally(subs);
    var nemesis := Candidates(order, counts);
    var ranked := SortByAttempts(nemesis);
    r := Ok(Take(ranked, 5));
  }

  // ---------------------------------------------------------------------
  // The filter

  /** An entry is a candidate exactly when its slug is a nemesis key of the
      fold and it carries that slug's attempts. */
  lemma {:induction false} CandidateMembers(order: seq<string>, counts: map<string, AttemptState>, e: Entry)
    requires forall slug :: slug in order ==> slug in counts
    ensures e in Candidates(order, counts) <==>
              e.0 in order && IsNemesis(counts[e.0]) && e.1 == counts[e.0].attempts
  {
    if order != [] {
      CandidateMembers(order[1..], counts, e);
      assert e.0 in order <==> e.0 == order[0] || e.0 in order[1..];
    }
  }

  // ---------------------------------------------------------------------
  // The sort

  /** `a` comes before `b` in the ranking: more attempts, or as many and
      `a`'s slug appeared first in the feed. */
  predicate Precedes(subs: seq<Submission>, a: Entry, b: Entry)
  {
    a.1 > b.1 || (a.1 == b.1 && FirstIndex(subs, a.0) < FirstIndex(subs, b.0))
  }

  predicate RankedBy(subs: seq<Submission>, s: seq<Entry>)
  {
    forall i, j :: 0 <= i < j < |s| ==> Precedes(subs, s[i], s[j])
  }

  /** The entries are in order of first appearance of their slugs. */
  predicate InFeedOrder(subs: seq<Submission>, s: seq<Entry>)
  {
    forall i, j :: 0 <= i < j < |s| ==> FirstIndex(subs, s[i].0) < FirstIndex(subs, s[j].0)
  }

  lemma {:induction false} InsertPermutes(x: Entry, s: seq<Entry>)
    ensures multiset(Insert(x, s)) == multiset([x] + s)
  {
    if s != [] && x.1 < s[0].1 {
      InsertPermutes(x, s[1..]);
      assert s == [s[0]] + s[1..];
    }
  }

  /** An entry that precedes every entry of a ranking heads a longer one. */
  lemma RankedCons(subs: seq<Submission>, e: Entry, t: seq<Entry>)
    requires RankedBy(subs, t)
    requires forall k :: 0 <= k < |t| ==> Precedes(subs, e, t[k])
    ensures RankedBy(subs, [e] + t)
  {
    var s := [e] + t;
    forall i, j | 0 <= i < j < |s|
      ensures Precedes(subs, s[i], s[j])
    {
      assert s[j] == t[j - 1];
      if i > 0 {
        assert s[i] == t[i - 1];
      }
    }
  }

  /** Inserting an entry whose slug appeared before all others keeps the
      ranking. */
  lemma {:induction false} InsertRanked(subs: seq<Submission>, x: Entry, s: seq<Entry>)
    requires RankedBy(subs, s)
    requires forall k :: 0 <= k < |s| ==> FirstIndex(subs, x.0) < FirstIndex(subs, s[k].0)
    ensures RankedBy(subs, Insert(x, s))
  {
    if s == [] {
    } else if x.1 >= s[0].1 {
      forall k | 0 <= k < |s|
        ensures Precedes(subs, x, s[k])
      {
        if k > 0 {
          assert Precedes(subs, s[0], s[k]);
        }
      }
      RankedCons(subs, x, s);
    } else {
      var tail := s[1..];
      assert RankedBy(subs, tail) by {
        forall i, j | 0 <= i < j < |tail|
          ensures Precedes(subs, tail[i], tail[j])
        {
          assert tail[i] == s[i + 1] && tail[j] == s[j + 1];
        }
      }
      InsertRanked(subs, x, tail);
      InsertPermutes(x, tail);
      var t := Insert(x, tail);
      forall k | 0 <= k < |t|
        ensures Precedes(subs, s[0], t[k])
      {
        assert t[k] in multiset([x] + tail);
        if t[k] != x {
          assert t[k] in tail;
          var m :| 0 <= m < |tail| && tail[m] == t[k];
          assert s[m + 1] == t[k];
          assert Precedes(subs, s[0], s[m + 1]);
        }
      }
      RankedCons(subs, s[0], t);
    }
  }

  lemma {:induction false} SortPermutes(s: seq<Entry>)
    ensures multiset(SortByAttempts(s)) == multiset(s)
  {
    if s != [] {
      SortPermutes(s[1..]);
      InsertPermutes(s[0], SortByAttempts(s[1..]));
      assert s == [s[0]] + s[1..];
    }
  }

  /** Sorting entries listed in feed order ranks them: attempts never
      increase, and equal attempts keep feed order (the sort is stable). */
  lemma {:induction false} SortRanks(subs: seq<Submission>, s: seq<Entry>)
    requires InFeedOrder(subs, s)
    ensures RankedBy(subs, SortByAttempts(s))
  {
    if s != [] {
      var sorted := SortByAttempts(s[1..]);
      SortRanks(subs, s[1..]);
      SortPermutes(s[1..]);
      forall k | 0 <= k < |sorted|
        ensures FirstIndex(subs, s[0].0) < FirstIndex(subs, sorted[k].0)
      {
        assert sorted[k] in multiset(s[1..]);
        var m :| 0 <= m < |s[1..]| && s[1..][m] == sorted[k];
        assert s[m + 1] == sorted[k];
      }
      InsertRanked(subs, s[0], sorted);
    }
  }

  /** The candidates are in feed order, because the fold's keys are. */
  lemma {:induction false} CandidatesInFeedOrder(subs: seq<Submission>, order: seq<string>, counts: map<string, AttemptState>)
    requires forall slug :: slug in order ==> slug in counts
    requires forall i, j :: 0 <= i < j < |order| ==> FirstIndex(subs, order[i]) < FirstIndex(subs, order[j])
    ensures InFeedOrder(subs, Candidates(order, counts))
  {
    if order != [] {
      var rest := Candidates(order[1..], counts);
      CandidatesInFeedOrder(subs, order[1..], counts);
      forall k | 0 <= k < |rest|
        ensures FirstIndex(subs, order[0]) < FirstIndex(subs, rest[k].0)
      {
        CandidateMembers(order[1..], counts, rest[k]);
        var m :| 0 <= m < |order[1..]| && order[1..][m] == rest[k].0;
        assert order[m + 1] == rest[k].0;
      }
    }
  }

  // ---------------------------------------------------------------------
  // Properties of find_nemesis_problems

  /** At most 5 entries, each a slug of the feed that took more than 2
      attempts or was never accepted, with its number of attempts. */
  lemma NemesisQualify(subs: seq<Submission>)
    ensures |TopNemesis(subs)| <= 5
    ensures forall i :: 0 <= i < |TopNemesis(subs)| ==>
              var (slug, attempts) := TopNemesis(subs)[i];
              && slug in FirstSeen(subs)
              && attempts == Attempts(subs, slug)
              && (Attempts(subs, slug) > 2 || !EverAccepted(subs, slug))
  {
    var cands := Candidates(FirstSeen(subs), Tallies(subs));
    var sorted := SortByAttempts(cands);
    SortPermutes(cands);
    forall i | 0 <= i < |TopNemesis(subs)|
      ensures TopNemesis(subs)[i].0 in FirstSeen(subs)
      ensures TopNemesis(subs)[i].1 == Attempts(subs, TopNemesis(subs)[i].0)
      ensures Attempts(subs, TopNemesis(subs)[i].0) > 2 || !EverAccepted(subs, TopNemesis(subs)[i].0)
    {
      var e := sorted[i];
      assert e in multiset(cands);
      CandidateMembers(FirstSeen(subs), Tallies(subs), e);
    }
  }

  /** Attempts never increase along the result, and entries with equal
      attempts are in order of first appearance in the feed. */
  lemma NemesisRanked(subs: seq<Submission>)
    ensures forall i, j :: 0 <= i < j < |TopNemesis(subs)| ==>
              || TopNemesis(subs)[i].1 > TopNemesis(subs)[j].1
              || (&& TopNemesis(subs)[i].1 == TopNemesis(subs)[j].1
                  && FirstIndex(subs, TopNemesis(subs)[i].0) < FirstIndex(subs, TopNemesis(subs)[j].0))
  {
    var cands := Candidates(FirstSeen(subs), Tallies(subs));
    FirstSeenInFeedOrder(subs);
    CandidatesInFeedOrder(subs, FirstSeen(subs), Tallies(subs));
    SortRanks(subs, cands);
    assert RankedBy(subs, TopNemesis(subs));
  }

  /** A qualifying slug left out of the result has no more attempts than
      any entry kept, and was left out only because 5 were kept. */
  lemma NemesisOmitsOnlyLower(subs: seq<Submission>, slug: string)
    requires slug in FirstSeen(subs)
    requires Attempts(subs, slug) > 2 || !EverAccepted(subs, slug)
    requires forall i :: 0 <= i < |TopNemesis(subs)| ==> TopNemesis(subs)[i].0 != slug
    ensures |TopNemesis(subs)| == 5
    ensures forall i :: 0 <= i < |TopNemesis(subs)| ==> TopNemesis(subs)[i].1 >= Attempts(subs, slug)
  {
    var cands := Candidates(FirstSeen(subs), Tallies(subs));
    var sorted := SortByAttempts(cands);
    var top := TopNemesis(subs);
    var e := (slug, Attempts(subs, slug));
    CandidateMembers(FirstSeen(subs), Tallies(subs), e);
    SortPermutes(cands);
    assert e in multiset(sorted);
    var m :| 0 <= m < |sorted| && sorted[m] == e;
    FirstSeenInFeedOrder(subs);
    CandidatesInFeedOrder(subs, FirstSeen(subs), Tallies(subs));
    SortRanks(subs, cands);
    OmittedRankedBelow(subs, sorted, top, m);
  }

  lemma TakeKeeps<T>(s: seq<T>, n: nat, k: nat)
    requires k < |s|
    ensures k < n ==> s[k] in Take(s, n)
  {
  }

  /** An entry of a ranking that a prefix of it does not reach ranks below
      every entry of that prefix. */
  lemma OmittedRankedBelow(subs: seq<Submission>, sorted: seq<Entry>, top: seq<Entry>, m: nat)
    requires RankedBy(subs, sorted)
    requires top == Take(sorted, 5)
    requires m < |sorted|
    requires forall i :: 0 <= i < |top| ==> top[i].0 != sorted[m].0
    ensures |top| == 5
    ensures forall i :: 0 <= i < |top| ==> top[i].1 >= sorted[m].1
  {
    TakeKeeps(sorted, 5, m);
    assert forall i :: 0 <= i < |top| ==> top[i] == sorted[i];
    forall i | 0 <= i < |top|
      ensures top[i].1 >= sorted[m].1
    {
      assert Precedes(subs, sorted[i], sorted[m]);
    }
  }
}
