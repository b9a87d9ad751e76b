/** `analyze_topic_gaps` (app/analyzer.py): the topics of the index that no
    accepted problem carries, each with up to 5 Easy or Medium problems the
    user has neither solved nor struggled with (more than 2 attempts), at
    most 5 topics. */
module TopicGaps {
  import opened Corpus
  import opened Slugs
  import opened Submissions
  import opened Index

  // ---------------------------------------------------------------------
  // The sets the analysis builds

  /** `solved_slugs`: the slugs of the accepted submissions. */
  function SolvedSlugs(subs: seq<Submission>): set<string>
  {
    set i | 0 <= i < |subs| && IsAccepted(subs[i]) :: SlugOf(subs[i])
  }

  /** `nemesis_slugs` of this analysis: the keys of the fold with more than
      2 attempts (unlike `find_nemesis_problems`, unsolved alone does not
      qualify). */
  function HeavySlugs(counts: map<string, AttemptState>): set<string>
  {
    set slug | slug in counts && counts[slug].attempts > 2
  }

  /** Membership in `solved_topics`: some solved slug found in the index
      carries the tag; solved slugs missing from the index contribute
      nothing. */
  predicate IsSolvedTopic(solved: set<string>, bySlug: map<string, Question>, topic: string)
  {
    exists slug :: slug in solved && slug in bySlug && topic in bySlug[slug].topicTags
  }

  /** A question the scan suggests: Easy or Medium, titled, and its slug
      neither solved nor struggled with. */
  predicate Suggestible(q: Question, solved: set<string>, heavy: set<string>)
  {
    && (q.difficulty == Some("Easy") || q.difficulty == Some("Medium"))
    && q.title.Some?
    && Slug(q.title.value) !in solved
    && Slug(q.title.value) !in heavy
  }

  /** The slugs of the suggestible questions of a topic list, in list order. */
  function Eligible(qs: seq<Question>, solved: set<string>, heavy: set<string>): seq<string>
  {
    if qs == [] then []
    else
      var q := qs[|qs| - 1];
      Eligible(qs[..|qs| - 1], solved, heavy)
        + (if Suggestible(q, solved, heavy) then [Slug(q.title.value)] else [])
  }

  /** What the suggestion scan yields for one topic list. */
  function Suggestions(qs: seq<Question>, solved: set<string>, heavy: set<string>): seq<string>
  {
    Take(Eligible(qs, solved, heavy), 5)
  }

  /** The suggestions for `topic`, as a function of the feed and the index. */
  function TopicSuggestions(subs: seq<Submission>, byTopic: map<string, seq<Question>>, topic: string): seq<string>
  {
    Suggestions(Lookup(byTopic, topic), SolvedSlugs(subs), HeavySlugs(Tallies(subs)))
  }

  /** The topics that may appear in the result: topics of the index that no
      solved question carries and that have at least one suggestion. */
  function GapTopics(subs: seq<Submission>, bySlug: map<string, Question>, byTopic: map<string, seq<Question>>): set<string>
  {
    set topic | topic in byTopic
                && !IsSolvedTopic(SolvedSlugs(subs), bySlug, topic)
                && TopicSuggestions(subs, byTopic, topic) != []
  }

  /** The topics of `unsolved` with at least one suggestion. */
  function GapsAmong(unsolved: set<string>, byTopic: map<string, seq<Question>>, solved: set<string>, heavy: set<string>): set<string>
  {
    set topic | topic in unsolved && Suggestions(Lookup(byTopic, topic), solved, heavy) != []
  }

  /** What `analyze_topic_gaps` promises: an error exactly for an empty
      feed; otherwise min(5, number of gap topics) gap topics, each mapped
      to its suggestions. */
  predicate IsGapReport(subs: seq<Submission>, bySlug: map<string, Question>, byTopic: map<string, seq<Question>>,
                        r: Result<map<string, seq<string>>>)
  {
    && (subs == [] <==> r.Err?)
    && (r.Err? ==> r.message == "Could not fetch user submissions.")
    && (r.Ok? ==> r.value.Keys <= GapTopics(subs, bySlug, byTopic))
    && (r.Ok? ==> |r.value| == Min(5, |GapTopics(subs, bySlug, byTopic)|))
    && (r.Ok? ==> forall topic :: topic in r.value ==> r.value[topic] == TopicSuggestions(subs, byTopic, topic))
  }

  // ---------------------------------------------------------------------
  // The loops

  /** Lines 25-30: the tag names of every solved slug found in the index,
      visiting `solved_slugs` in an unspecified order. */
  method CollectSolvedTopics(solved: set<string>, dm: DataManager) returns (topics: set<string>)
    ensures forall topic :: topic in topics <==> IsSolvedTopic(solved, dm.questionsBySlug, topic)
  {
    topics := {};
    var remaining := solved;
    while remaining != {}
      invariant remaining <= solved
      invariant forall topic :: topic in topics <==> IsSolvedTopic(solved - remaining, dm.questionsBySlug, topic)
      decreases |remaining|
    {
      var slug :| slug in remaining;
      ghost var done := solved - remaining;
      ghost var before := topics;
      var question := dm.QuestionBySlug(slug);
      if question.Some? {
        topics := AddTags(topics, question.value.topicTags);
      }
      remaining := remaining - {slug};
      SolvedTopicsOneMore(done, slug, dm.questionsBySlug, before, topics);
    }
  }

  /** Lines 29-30: add every tag name of one question. */
  method AddTags(topics: set<string>, tags: seq<string>) returns (r: set<string>)
    ensures r == topics + Elements(tags)
  {
    r := topics;
    var k := 0;
    while k < |tags|
      invariant 0 <= k <= |tags|
      invariant r == topics + Elements(tags[..k])
    {
      assert Elements(tags[..k + 1]) == Elements(tags[..k]) + {tags[k]};
      r := r + {tags[k]};
      k := k + 1;
    }
    assert tags[..k] == tags;
  }

  /** Lines 39-46: scan a topic's list in order, keep the suggestible slugs,
      stop as soon as 5 are kept. */
  method CollectSuggestions(questions: seq<Question>, solved: set<string>, heavy: set<string>)
    returns (suggestions: seq<string>)
    ensures suggestions == Suggestions(questions, solved, heavy)
  {
    suggestions := [];
    var j := 0;
    while j < |questions|
      invariant 0 <= j <= |questions|
      invariant suggestions == Eligible(questions[..j], solved, heavy)
      invariant |suggestions| < 5
    {
      var q := questions[j];
      assert questions[..j + 1][..j] == questions[..j];
      if (q.difficulty == Some("Easy") || q.difficulty == Some("Medium")) && q.title.Some? {
        var slug := Slug(q.title.value);
        if slug !in solved && slug !in heavy {
          suggestions := suggestions + [slug];
        }
      }
      j := j + 1;
      if |suggestions| == 5 {
        break;
      }
    }
    assert j == |questions| ==> questions[..j] == questions;
    EligiblePrefix(questions, j, solved, heavy);
  }

  /** `analyze_topic_gaps(username, data_manager)` with the fetched feed as
      input. The topics are visited in an unspecified order, so which gap
      topics survive the cut at 5 is not determined; the result holds
      min(5, number of gap topics) of them, each with its suggestions. */
  method AnalyzeTopicGaps(subs: seq<Submission>, dm: DataManager) returns (r: Result<map<string, seq<string>>>)
    ensures IsGapReport(subs, dm.questionsBySlug, dm.questionsByTopic, r)
  {
    if subs == [] {
      return Err("Could not fetch user submissions.");
    }
    var solved := SolvedSlugs(subs);
    var order, counts := Tally(subs);
    var heavy := HeavySlugs(counts);
    var solvedTopics := CollectSolvedTopics(solved, dm);
    var unsolved := dm.questionsByTopic.Keys - solvedTopics;

    var gaps, gapOrder := CollectGaps(unsolved, dm.questionsByTopic, solved, heavy);
    var kept := Take(gapOrder, 5);
    r := Ok(map topic | topic in kept :: gaps[topic]);

    assert GapsAmong(unsolved, dm.questionsByTopic, solved, heavy) == GapTopics(subs, dm.questionsBySlug, dm.questionsByTopic);
    KeptCardinality(gapOrder);
    assert r.value.Keys == Elements(kept);
  }

  /** Lines 35-48: visit the unsolved topics in an unspecified order and
      record each topic with a non-empty suggestion list. `gapOrder` is the
      key order of the resulting dict. */
  method CollectGaps(unsolved: set<string>, byTopic: map<string, seq<Question>>, solved: set<string>, heavy: set<string>)
    returns (gaps: map<string, seq<string>>, gapOrder: seq<string>)
    ensures Distinct(gapOrder)
    ensures Elements(gapOrder) == GapsAmong(unsolved, byTopic, solved, heavy)
    ensures forall topic :: topic in gaps <==> topic in gapOrder
    ensures forall topic :: topic in gaps ==> gaps[topic] == Suggestions(Lookup(byTopic, topic), solved, heavy)
  {
    gaps, gapOrder := map[], [];
    var remaining := unsolved;
    while remaining != {}
      invariant remaining <= unsolved
      invariant Distinct(gapOrder)
      invariant forall topic :: topic in gaps <==> topic in gapOrder
      invariant forall topic :: topic in gaps ==> topic in unsolved && topic !in remaining
      invariant forall topic :: topic in gaps ==>
                  gaps[topic] == Suggestions(Lookup(byTopic, topic), solved, heavy) && gaps[topic] != []
      invariant forall topic :: topic in unsolved && topic !in remaining ==>
                  (Suggestions(Lookup(byTopic, topic), solved, heavy) != [] ==> topic in gaps)
      decreases |remaining|
    {
      var topic :| topic in remaining;
      var questions := Lookup(byTopic, topic);
      var suggestions := CollectSuggestions(questions, solved, heavy);
      if suggestions != [] {
        gaps := gaps[topic := suggestions];
        gapOrder := gapOrder + [topic];
      }
      remaining := remaining - {topic};
    }
  }

  // ---------------------------------------------------------------------
  // Step lemmas

  /** One more solved slug adds its tags, when it is in the index. */
  lemma SolvedTopicsOneMore(done: set<string>, slug: string, bySlug: map<string, Question>,
                            before: set<string>, after: set<string>)
    requires forall topic :: topic in before <==> IsSolvedTopic(done, bySlug, topic)
    requires after == before + (if slug in bySlug then Elements(bySlug[slug].topicTags) else {})
    ensures forall topic :: topic in after <==> IsSolvedTopic(done + {slug}, bySlug, topic)
  {
    forall topic | IsSolvedTopic(done + {slug}, bySlug, topic)
      ensures topic in after
    {
      var s :| s in done + {slug} && s in bySlug && topic in bySlug[s].topicTags;
      if s != slug {
        assert IsSolvedTopic(done, bySlug, topic);
      }
    }
    forall topic | topic in after
      ensures IsSolvedTopic(done + {slug}, bySlug, topic)
    {
      if topic in before {
        var s :| s in done && s in bySlug && topic in bySlug[s].topicTags;
        assert s in done + {slug};
      } else {
        assert slug in done + {slug};
      }
    }
  }

  /** Keeping the first 5 of a duplicate-free key order keeps
      min(5, number of keys) distinct keys. */
  lemma KeptCardinality(order: seq<string>)
    requires Distinct(order)
    ensures Distinct(Take(order, 5))
    ensures |Elements(Take(order, 5))| == Min(5, |Elements(order)|)
  {
    DistinctCardinality(order);
    DistinctCardinality(Take(order, 5));
  }

  /** A prefix of a topic list yields a prefix of its eligible slugs. */
  lemma {:induction false} EligiblePrefix(qs: seq<Question>, j: nat, solved: set<string>, heavy: set<string>)
    requires j <= |qs|
    ensures |Eligible(qs[..j], solved, heavy)| <= |Eligible(qs, solved, heavy)|
    ensures Eligible(qs[..j], solved, heavy) == Eligible(qs, solved, heavy)[..|Eligible(qs[..j], solved, heavy)|]
  {
    if j < |qs| {
      var init := qs[..|qs| - 1];
      assert qs[..j] == init[..j];
      EligiblePrefix(init, j, solved, heavy);
    } else {
      assert qs[..j] == qs;
    }
  }

  // ---------------------------------------------------------------------
  // Properties of analyze_topic_gaps

  /** `solved_slugs` are exactly the keys of the fold marked accepted. */
  lemma SolvedSlugsAreAccepted(subs: seq<Submission>, slug: string)
    ensures slug in SolvedSlugs(subs) <==> slug in Tallies(subs) && Tallies(subs)[slug].accepted
  {
    FirstSeenMembers(subs, slug);
  }

  /** The struggled-with set is the slugs with more than 2 attempts. */
  lemma HeavySlugsAreOverTwo(subs: seq<Submission>, slug: string)
    ensures slug in HeavySlugs(Tallies(subs)) <==> Attempts(subs, slug) > 2
  {
    AttemptsPositive(subs, slug);
  }

  /** `q` is suggestible and has slug `slug`. */
  predicate SuggestsSlug(q: Question, solved: set<string>, heavy: set<string>, slug: string)
  {
    Suggestible(q, solved, heavy) && Slug(q.title.value) == slug
  }

  /** Every eligible slug is that of some suggestible question of the list. */
  lemma {:induction false} EligibleSound(qs: seq<Question>, solved: set<string>, heavy: set<string>, slug: string)
    requires slug in Eligible(qs, solved, heavy)
    ensures exists i :: 0 <= i < |qs| && SuggestsSlug(qs[i], solved, heavy, slug)
  {
    var init, last := qs[..|qs| - 1], qs[|qs| - 1];
    if slug in Eligible(init, solved, heavy) {
      EligibleSound(init, solved, heavy, slug);
      var i :| 0 <= i < |init| && SuggestsSlug(init[i], solved, heavy, slug);
      assert qs[i] == init[i];
    } else {
      assert SuggestsSlug(qs[|qs| - 1], solved, heavy, slug);
    }
  }

  /** The slug of every suggestible question of the list is eligible. */
  lemma {:induction false} EligibleComplete(qs: seq<Question>, solved: set<string>, heavy: set<string>, i: nat)
    requires i < |qs| && Suggestible(qs[i], solved, heavy)
    ensures Slug(qs[i].title.value) in Eligible(qs, solved, heavy)
  {
    var init := qs[..|qs| - 1];
    if i < |init| {
      assert init[i] == qs[i];
      EligibleComplete(init, solved, heavy, i);
    }
  }

  /** A slug is eligible exactly when some question of the list is
      suggestible and has that slug. */
  lemma EligibleMembers(qs: seq<Question>, solved: set<string>, heavy: set<string>, slug: string)
    ensures slug in Eligible(qs, solved, heavy) <==> exists i :: 0 <= i < |qs| && SuggestsSlug(qs[i], solved, heavy, slug)
  {
    if slug in Eligible(qs, solved, heavy) {
      EligibleSound(qs, solved, heavy, slug);
    }
    if exists i :: 0 <= i < |qs| && SuggestsSlug(qs[i], solved, heavy, slug) {
      var i :| 0 <= i < |qs| && SuggestsSlug(qs[i], solved, heavy, slug);
      EligibleComplete(qs, solved, heavy, i);
    }
  }

  /** Every gap topic is a topic of the index that no solved question found
      in the index carries, and it has 1 to 5 suggestions. */
  lemma GapTopicIsUnsolved(subs: seq<Submission>, bySlug: map<string, Question>, byTopic: map<string, seq<Question>>, topic: string)
    requires topic in GapTopics(subs, bySlug, byTopic)
    ensures topic in byTopic
    ensures forall slug :: slug in SolvedSlugs(subs) && slug in bySlug ==> topic !in bySlug[slug].topicTags
    ensures 1 <= |TopicSuggestions(subs, byTopic, topic)| <= 5
  {
  }

  /** Every suggestion is the slug of an Easy or Medium question listed under
      the topic, never accepted, and attempted at most twice. */
  lemma SuggestionQualifies(subs: seq<Submission>, byTopic: map<string, seq<Question>>, topic: string, k: nat)
    requires k < |TopicSuggestions(subs, byTopic, topic)|
    ensures var slug := TopicSuggestions(subs, byTopic, topic)[k];
            && (exists i :: 0 <= i < |Lookup(byTopic, topic)|
                  && Lookup(byTopic, topic)[i].difficulty in {Some("Easy"), Some("Medium")}
                  && Lookup(byTopic, topic)[i].title.Some?
                  && Slug(Lookup(byTopic, topic)[i].title.value) == slug)
            && !EverAccepted(subs, slug)
            && Attempts(subs, slug) <= 2
  {
    var qs := Lookup(byTopic, topic);
    var solved, heavy := SolvedSlugs(subs), HeavySlugs(Tallies(subs));
    var slug := TopicSuggestions(subs, byTopic, topic)[k];
    assert slug in Eligible(qs, solved, heavy);
    EligibleMembers(qs, solved, heavy, slug);
    SolvedSlugsAreAccepted(subs, slug);
    HeavySlugsAreOverTwo(subs, slug);
  }

  /** A topic of the index no solved question carries is left out of the
      gap topics only when it has no suggestion. */
  lemma DroppedTopicsHaveNoSuggestion(subs: seq<Submission>, bySlug: map<string, Question>, byTopic: map<string, seq<Question>>, topic: string)
    requires topic in byTopic && !IsSolvedTopic(SolvedSlugs(subs), bySlug, topic)
    requires topic !in GapTopics(subs, bySlug, byTopic)
    ensures TopicSuggestions(subs, byTopic, topic) == []
  {
  }
}
