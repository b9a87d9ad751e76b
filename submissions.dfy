/** The submission fold that `analyze_topic_gaps` and `find_nemesis_problems`
    (app/analyzer.py) each run over the recent-submissions feed: one
    `{accepted, attempts}` record per slug, keyed in the order in which the
    slugs first appear in the feed. */
module Submissions {
  import opened Corpus
  import opened Slugs

  /** One record of the recent-submissions feed. */
  datatype Submission = Submission(title: string, statusDisplay: string)

  /** `{'accepted': ..., 'attempts': ...}` */
  datatype AttemptState = AttemptState(accepted: bool, attempts: nat)

  predicate IsAccepted(sub: Submission)
  {
    sub.statusDisplay == "Accepted"
  }

  function SlugOf(sub: Submission): string
  {
    Slug(sub.title)
  }

  // ---------------------------------------------------------------------
  // What the fold computes, stated per slug

  /** The number of submissions in the feed whose title has this slug. */
  function Attempts(subs: seq<Submission>, slug: string): nat
  {
    if subs == [] then 0
    else Attempts(subs[..|subs| - 1], slug) + (if SlugOf(subs[|subs| - 1]) == slug then 1 else 0)
  }

  /** Some submission with this slug was accepted. */
  predicate EverAccepted(subs: seq<Submission>, slug: string)
  {
    exists i :: 0 <= i < |subs| && SlugOf(subs[i]) == slug && IsAccepted(subs[i])
  }

  /** The distinct slugs of the feed in order of first appearance: the key
      order of the dict the fold builds. */
  function FirstSeen(subs: seq<Submission>): seq<string>
  {
    if subs == [] then []
    else
      var before := FirstSeen(subs[..|subs| - 1]);
      var slug := SlugOf(subs[|subs| - 1]);
      if slug in before then before else before + [slug]
  }

  /** The index of the first submission with this slug (meaningful for the
      slugs of the feed). */
  function FirstIndex(subs: seq<Submission>, slug: string): nat
  {
    if subs == [] then 0
    else if slug in FirstSeen(subs[..|subs| - 1]) then FirstIndex(subs[..|subs| - 1], slug)
    else |subs| - 1
  }

  /** The dict the fold builds, as a function of the feed. */
  function Tallies(subs: seq<Submission>): map<string, AttemptState>
  {
    map slug | slug in FirstSeen(subs) :: AttemptState(EverAccepted(subs, slug), Attempts(subs, slug))
  }

  // ---------------------------------------------------------------------
  // The fold itself

  /** The loop of app/analyzer.py that fills `submission_counts`: a slug
      seen for the first time gets `{accepted: False, attempts: 0}`; every
      submission adds an attempt, and an accepted one sets `accepted`.
      `order` is the key order of the resulting dict. */
  method Tally(subs: seq<Submission>) returns (order: seq<string>, counts: map<string, AttemptState>)
    ensures order == FirstSeen(subs)
    ensures counts == Tallies(subs)
  {
    order, counts := [], map[];
    var i := 0;
    while i < |subs|
      invariant 0 <= i <= |subs|
      invariant order == FirstSeen(subs[..i])
      invariant counts == Tallies(subs[..i])
    {
      var sub := subs[i];
      var slug := Slug(sub.title);
      ghost var entry := if slug in counts then counts[slug] else AttemptState(false, 0);
      TalliesOneMore(subs, i);
      FirstSeenOneMore(subs, i);
      var state;
      if slug in counts {
        state := counts[slug];
      } else {
        state := AttemptState(false, 0);
        order := order + [slug];
      }
      state := state.(attempts := state.attempts + 1);
      if sub.statusDisplay == "Accepted" {
        state := state.(accepted := true);
      }
      assert state == AttemptState(entry.accepted || IsAccepted(sub), entry.attempts + 1);
      counts := counts[slug := state];
      i := i + 1;
    }
    assert subs[..i] == subs;
  }

  /** One more submission updates the entry of its own slug and no other:
      a slug seen for the first time starts from (not accepted, 0 attempts),
      gains one attempt, and becomes accepted with an accepted submission. */
  lemma TalliesOneMore(subs: seq<Submission>, i: nat)
    requires i < |subs|
    ensures var slug := SlugOf(subs[i]);
            var entry := if slug in Tallies(subs[..i]) then Tallies(subs[..i])[slug] else AttemptState(false, 0);
            Tallies(subs[..i + 1]) == Tallies(subs[..i])[slug := AttemptState(entry.accepted || IsAccepted(subs[i]), entry.attempts + 1)]
  {
    var slug := SlugOf(subs[i]);
    var before, after := Tallies(subs[..i]), Tallies(subs[..i + 1]);
    var entry := if slug in before then before[slug] else AttemptState(false, 0);
    var updated := before[slug := AttemptState(entry.accepted || IsAccepted(subs[i]), entry.attempts + 1)];
    assert after.Keys == updated.Keys by {
      FirstSeenOneMore(subs, i);
    }
    forall s | s in after
      ensures after[s] == updated[s]
    {
      FeedOneMore(subs, i, s);
      if s == slug && slug !in before {
        AttemptsPositive(subs[..i], slug);
        FirstSeenMembers(subs[..i], slug);
      }
    }
  }

  /** One more submission appends its slug to the key order when it is new. */
  lemma FirstSeenOneMore(subs: seq<Submission>, i: nat)
    requires i < |subs|
    ensures FirstSeen(subs[..i + 1]) == if SlugOf(subs[i]) in FirstSeen(subs[..i]) then FirstSeen(subs[..i]) else FirstSeen(subs[..i]) + [SlugOf(subs[i])]
  {
    assert subs[..i + 1][..i] == subs[..i];
  }

  /** One more submission of the feed, seen through the per-slug functions:
      it adds an attempt to its own slug only, and makes that slug accepted
      when it is accepted. */
  lemma FeedOneMore(subs: seq<Submission>, i: nat, slug: string)
    requires i < |subs|
    ensures Attempts(subs[..i + 1], slug) == Attempts(subs[..i], slug) + (if SlugOf(subs[i]) == slug then 1 else 0)
    ensures EverAccepted(subs[..i + 1], slug) <==> EverAccepted(subs[..i], slug) || (SlugOf(subs[i]) == slug && IsAccepted(subs[i]))
  {
    assert subs[..i + 1][..i] == subs[..i];
    if EverAccepted(subs[..i + 1], slug) {
      var k :| 0 <= k < i + 1 && SlugOf(subs[..i + 1][k]) == slug && IsAccepted(subs[..i + 1][k]);
      if k < i {
        assert subs[..i][k] == subs[k];
      }
    }
    if EverAccepted(subs[..i], slug) {
      var k :| 0 <= k < i && SlugOf(subs[..i][k]) == slug && IsAccepted(subs[..i][k]);
      assert subs[..i + 1][k] == subs[k];
    }
    if SlugOf(subs[i]) == slug && IsAccepted(subs[i]) {
      assert subs[..i + 1][i] == subs[i];
    }
  }

  // ---------------------------------------------------------------------
  // Properties of the fold

  /** The keys of the fold are exactly the slugs of the feed. */
  lemma {:induction false} FirstSeenMembers(subs: seq<Submission>, slug: string)
    ensures slug in FirstSeen(subs) <==> exists i :: 0 <= i < |subs| && SlugOf(subs[i]) == slug
  {
    if subs != [] {
      var init := subs[..|subs| - 1];
      FirstSeenMembers(init, slug);
      if exists i :: 0 <= i < |init| && SlugOf(init[i]) == slug {
        var i :| 0 <= i < |init| && SlugOf(init[i]) == slug;
        assert subs[i] == init[i];
      }
      if exists i :: 0 <= i < |subs| && SlugOf(subs[i]) == slug {
        var i :| 0 <= i < |subs| && SlugOf(subs[i]) == slug;
        if i < |init| {
          assert init[i] == subs[i];
        }
      }
    }
  }

  /** Each slug is a key of the fold once. */
  lemma {:induction false} FirstSeenDistinct(subs: seq<Submission>)
    ensures Distinct(FirstSeen(subs))
  {
    if subs != [] {
      FirstSeenDistinct(subs[..|subs| - 1]);
    }
  }

  /** A slug's attempt count is positive exactly when the slug occurs in the
      feed; in particular every key of the fold has at least one attempt. */
  lemma {:induction false} AttemptsPositive(subs: seq<Submission>, slug: string)
    ensures Attempts(subs, slug) > 0 <==> slug in FirstSeen(subs)
  {
    if subs != [] {
      AttemptsPositive(subs[..|subs| - 1], slug);
    }
  }

  /** Attempts added up over the listed slugs. */
  function SumAttempts(order: seq<string>, subs: seq<Submission>): nat
  {
    if order == [] then 0
    else SumAttempts(order[..|order| - 1], subs) + Attempts(subs, order[|order| - 1])
  }

  lemma {:induction false} SumAttemptsOneMore(order: seq<string>, subs: seq<Submission>, sub: Submission)
    requires Distinct(order)
    ensures SumAttempts(order, subs + [sub]) == SumAttempts(order, subs) + (if SlugOf(sub) in order then 1 else 0)
  {
    assert (subs + [sub])[..|subs|] == subs;
    if order != [] {
      var init := order[..|order| - 1];
      assert Distinct(init);
      SumAttemptsOneMore(init, subs, sub);
      assert SlugOf(sub) in order <==> SlugOf(sub) in init || SlugOf(sub) == order[|order| - 1];
    }
  }

  /** The attempts of all slugs add up to the length of the feed. */
  lemma {:induction false} AttemptsAddUp(subs: seq<Submission>)
    ensures SumAttempts(FirstSeen(subs), subs) == |subs|
  {
    if subs != [] {
      var init := subs[..|subs| - 1];
      var sub := subs[|subs| - 1];
      assert subs == init + [sub];
      AttemptsAddUp(init);
      FirstSeenDistinct(init);
      SumAttemptsOneMore(FirstSeen(init), init, sub);
      if SlugOf(sub) !in FirstSeen(init) {
        AttemptsPositive(init, SlugOf(sub));
      }
    }
  }

  /** `FirstIndex` is the position of the first submission with the slug. */
  lemma {:induction false} FirstIndexIsFirst(subs: seq<Submission>, slug: string)
    requires slug in FirstSeen(subs)
    ensures FirstIndex(subs, slug) < |subs| && SlugOf(subs[FirstIndex(subs, slug)]) == slug
    ensures forall j :: 0 <= j < FirstIndex(subs, slug) ==> SlugOf(subs[j]) != slug
  {
    var init := subs[..|subs| - 1];
    if slug in FirstSeen(init) {
      FirstIndexIsFirst(init, slug);
      assert forall j :: 0 <= j < |init| ==> init[j] == subs[j];
    } else {
      FirstSeenMembers(init, slug);
      assert forall j :: 0 <= j < |init| ==> init[j] == subs[j];
    }
  }

  /** The keys of the fold are in order of first appearance in the feed. */
  lemma {:induction false} FirstSeenInFeedOrder(subs: seq<Submission>)
    ensures forall i, j :: 0 <= i < j < |FirstSeen(subs)| ==>
              FirstIndex(subs, FirstSeen(subs)[i]) < FirstIndex(subs, FirstSeen(subs)[j])
    ensures forall i :: 0 <= i < |FirstSeen(subs)| ==> FirstIndex(subs, FirstSeen(subs)[i]) < |subs|
  {
    if subs != [] {
      var init := subs[..|subs| - 1];
      FirstSeenInFeedOrder(init);
      var before := FirstSeen(init);
      assert forall i :: 0 <= i < |before| ==> before[i] in before;
    }
  }
}
