/** The in-memory question index `DataManager` (app/data_manager.py). It
    walks the corpus (contest after contest, question after question),
    stores each titled question under the slug of its title in
    `questionsBySlug` (a later question with the same slug replaces the
    earlier one) and appends it to `questionsByTopic` under every non-empty
    tag name it carries.

    A Python dict remembers the order in which its keys were first
    inserted; `find_related_problems` scans `questions_by_slug` in that
    order, so the model keeps it in `slugOrder`. */
module Index {
  import opened Corpus
  import opened Slugs

  /** What reading and parsing the corpus file produced: nothing (missing
      file or invalid JSON) or the contests in file order. */
  datatype CorpusFile = Unreadable | Parsed(contests: seq<Contest>)

  /** The questions of the corpus in contest-then-question order. */
  function Flatten(contests: seq<Contest>): seq<Option<Question>>
  {
    if contests == [] then []
    else Flatten(contests[..|contests| - 1]) + contests[|contests| - 1].questions
  }

  /** `question and "title" in question`: the questions the index keeps. */
  predicate Indexed(q: Option<Question>)
  {
    q.Some? && q.value.title.Some?
  }

  predicate HasSlug(q: Option<Question>, slug: string)
  {
    Indexed(q) && Slug(q.value.title.value) == slug
  }

  // ---------------------------------------------------------------------
  // The index as a function of the questions seen so far

  /** `questions_by_slug` after indexing `qs` on top of `m`. */
  function SlugsAfter(m: map<string, Question>, qs: seq<Option<Question>>): map<string, Question>
  {
    if qs == [] then m
    else
      var before := SlugsAfter(m, qs[..|qs| - 1]);
      var q := qs[|qs| - 1];
      if Indexed(q) then before[Slug(q.value.title.value) := q.value] else before
  }

  /** The insertion order of the keys of `questions_by_slug`: a key keeps
      the place where it was first inserted when its value is replaced. */
  function SlugOrderAfter(order: seq<string>, qs: seq<Option<Question>>): seq<string>
  {
    if qs == [] then order
    else
      var before := SlugOrderAfter(order, qs[..|qs| - 1]);
      var q := qs[|qs| - 1];
      if Indexed(q) && Slug(q.value.title.value) !in before
      then before + [Slug(q.value.title.value)]
      else before
  }

  function Lookup(m: map<string, seq<Question>>, topic: string): seq<Question>
  {
    if topic in m then m[topic] else []
  }

  /** Appending `q` under each non-empty tag name of `tags`, in order. */
  function TagsAfter(m: map<string, seq<Question>>, q: Question, tags: seq<string>): map<string, seq<Question>>
  {
    if tags == [] then m
    else
      var before := TagsAfter(m, q, tags[..|tags| - 1]);
      var topic := tags[|tags| - 1];
      if topic != "" then before[topic := Lookup(before, topic) + [q]] else before
  }

  /** `questions_by_topic` after indexing `qs` on top of `m`. */
  function TopicsAfter(m: map<string, seq<Question>>, qs: seq<Option<Question>>): map<string, seq<Question>>
  {
    if qs == [] then m
    else
      var before := TopicsAfter(m, qs[..|qs| - 1]);
      var q := qs[|qs| - 1];
      if Indexed(q) then TagsAfter(before, q.value, q.value.topicTags) else before
  }

  // ---------------------------------------------------------------------
  // An independent description of the topic lists

  function Count(tags: seq<string>, topic: string): nat
  {
    if tags == [] then 0
    else Count(tags[..|tags| - 1], topic) + (if tags[|tags| - 1] == topic then 1 else 0)
  }

  function Repeat(q: Question, n: nat): seq<Question>
  {
    if n == 0 then [] else Repeat(q, n - 1) + [q]
  }

  /** The titled questions of `qs` in order, each repeated once per
      occurrence of `topic` among its tags. */
  function TopicOccurrences(qs: seq<Option<Question>>, topic: string): seq<Question>
  {
    if qs == [] then []
    else
      var q := qs[|qs| - 1];
      TopicOccurrences(qs[..|qs| - 1], topic)
        + (if Indexed(q) && topic != "" then Repeat(q.value, Count(q.value.topicTags, topic)) else [])
  }

  // ---------------------------------------------------------------------
  // The index invariant

  /** Every key is the slug of its question's title. */
  ghost predicate KeyedBySlug(bySlug: map<string, Question>)
  {
    forall slug :: slug in bySlug ==> bySlug[slug].title.Some? && Slug(bySlug[slug].title.value) == slug
  }

  /** Every topic is a non-empty tag name listing a non-empty list of titled
      questions that all carry that tag. */
  ghost predicate WellFormedTopics(byTopic: map<string, seq<Question>>)
  {
    forall topic :: topic in byTopic ==>
      && topic != ""
      && byTopic[topic] != []
      && forall i :: 0 <= i < |byTopic[topic]| ==>
           topic in byTopic[topic][i].topicTags && byTopic[topic][i].title.Some?
  }

  ghost predicate ValidIndex(bySlug: map<string, Question>, slugOrder: seq<string>, byTopic: map<string, seq<Question>>)
  {
    && Distinct(slugOrder)
    && (forall slug :: slug in bySlug <==> slug in slugOrder)
    && KeyedBySlug(bySlug)
    && WellFormedTopics(byTopic)
  }

  class DataManager {
    var questionsBySlug: map<string, Question>
    /** The keys of `questionsBySlug` in insertion order. */
    var slugOrder: seq<string>
    var questionsByTopic: map<string, seq<Question>>

    ghost predicate Valid()
      reads this
    {
      ValidIndex(questionsBySlug, slugOrder, questionsByTopic)
    }

    /** `__init__`: both maps start empty. */
    constructor ()
      ensures Valid()
      ensures questionsBySlug == map[] && slugOrder == [] && questionsByTopic == map[]
    {
      questionsBySlug := map[];
      slugOrder := [];
      questionsByTopic := map[];
    }

    /** `load_and_index_data`, after the file has been read: an unreadable
        file leaves the index as it is; otherwise every question of the
        corpus is indexed, on top of what the index already holds. */
    method LoadAndIndex(file: CorpusFile)
      requires Valid()
      modifies this
      ensures Valid()
      ensures file.Unreadable? ==> unchanged(this)
      ensures file.Parsed? ==>
        && questionsBySlug == SlugsAfter(old(questionsBySlug), Flatten(file.contests))
        && slugOrder == SlugOrderAfter(old(slugOrder), Flatten(file.contests))
        && questionsByTopic == TopicsAfter(old(questionsByTopic), Flatten(file.contests))
    {
      if file.Unreadable? {
        return;
      }
      ghost var bySlug0, order0, byTopic0 := questionsBySlug, slugOrder, questionsByTopic;
      var contests := file.contests;
      var i := 0;
      while i < |contests|
        invariant 0 <= i <= |contests|
        invariant questionsBySlug == SlugsAfter(bySlug0, Flatten(contests[..i]))
        invariant slugOrder == SlugOrderAfter(order0, Flatten(contests[..i]))
        invariant questionsByTopic == TopicsAfter(byTopic0, Flatten(contests[..i]))
      {
        assert contests[..i + 1][..i] == contests[..i];
        IndexingAppends(bySlug0, order0, byTopic0, Flatten(contests[..i]), contests[i].questions);
        IndexContest(contests[i].questions);
        i := i + 1;
      }
      assert contests[..i] == contests;
      IndexingKeepsValid(bySlug0, order0, byTopic0, Flatten(contests));
    }

    /** The question loop of `load_and_index_data` for one contest. */
    method IndexContest(questions: seq<Option<Question>>)
      modifies this
      ensures questionsBySlug == SlugsAfter(old(questionsBySlug), questions)
      ensures slugOrder == SlugOrderAfter(old(slugOrder), questions)
      ensures questionsByTopic == TopicsAfter(old(questionsByTopic), questions)
    {
      var j := 0;
      while j < |questions|
        invariant 0 <= j <= |questions|
        invariant questionsBySlug == SlugsAfter(old(questionsBySlug), questions[..j])
        invariant slugOrder == SlugOrderAfter(old(slugOrder), questions[..j])
        invariant questionsByTopic == TopicsAfter(old(questionsByTopic), questions[..j])
      {
        assert questions[..j + 1] == questions[..j] + [questions[j]];
        IndexingAppends(old(questionsBySlug), old(slugOrder), old(questionsByTopic), questions[..j], [questions[j]]);
        IndexQuestion(questions[j]);
        j := j + 1;
      }
      assert questions[..j] == questions;
    }

    /** The body of the question loop of `load_and_index_data`: a titled
        question is stored under its slug and appended under each of its
        non-empty tag names; anything else is skipped. */
    method IndexQuestion(question: Option<Question>)
      modifies this
      ensures questionsBySlug == SlugsAfter(old(questionsBySlug), [question])
      ensures slugOrder == SlugOrderAfter(old(slugOrder), [question])
      ensures questionsByTopic == TopicsAfter(old(questionsByTopic), [question])
    {
      assert [question][..0] == [];
      if question.Some? && question.value.title.Some? {
        var slug := Slug(question.value.title.value);
        if slug !in slugOrder {
          slugOrder := slugOrder + [slug];
        }
        questionsBySlug := questionsBySlug[slug := question.value];
        AddUnderTags(question.value);
      }
    }

    /** The tag loop: `question` is appended to the list of each non-empty
        tag name it carries, once per occurrence. */
    method AddUnderTags(question: Question)
      modifies this`questionsByTopic
      ensures questionsByTopic == TagsAfter(old(questionsByTopic), question, question.topicTags)
    {
      var tags := question.topicTags;
      var k := 0;
      while k < |tags|
        invariant 0 <= k <= |tags|
        invariant questionsByTopic == TagsAfter(old(questionsByTopic), question, tags[..k])
      {
        TagOneMore(old(questionsByTopic), question, tags, k);
        ghost var before := questionsByTopic;
        var topicName := tags[k];
        if topicName != "" {
          if topicName !in questionsByTopic {
            questionsByTopic := questionsByTopic[topicName := []];
          }
          questionsByTopic := questionsByTopic[topicName := questionsByTopic[topicName] + [question]];
          assert questionsByTopic == before[topicName := Lookup(before, topicName) + [question]];
        }
        k := k + 1;
      }
      assert tags[..k] == tags;
    }

    /** `get_question_by_slug`: None for an unknown slug; a question found
        is one whose title has that slug. */
    function QuestionBySlug(slug: string): (r: Option<Question>)
      reads this
      ensures r.None? <==> slug !in questionsBySlug
      ensures r.Some? ==> r.value == questionsBySlug[slug]
      ensures Valid() && r.Some? ==> r.value.title.Some? && Slug(r.value.title.value) == slug
    {
      if slug in questionsBySlug then Some(questionsBySlug[slug]) else None
    }

    /** `get_questions_by_topic`: [] for an unknown topic; every question
        listed carries the topic. */
    function QuestionsByTopic(topic: string): (r: seq<Question>)
      reads this
      ensures topic !in questionsByTopic ==> r == []
      ensures topic in questionsByTopic ==> r == questionsByTopic[topic]
      ensures Valid() ==> forall i :: 0 <= i < |r| ==> topic in r[i].topicTags && r[i].title.Some?
    {
      Lookup(questionsByTopic, topic)
    }
  }

  // ---------------------------------------------------------------------
  // Properties of indexing

  lemma {:induction false} SlugsAppend(m: map<string, Question>, qs: seq<Option<Question>>, rest: seq<Option<Question>>)
    ensures SlugsAfter(m, qs + rest) == SlugsAfter(SlugsAfter(m, qs), rest)
  {
    if rest == [] {
      assert qs + rest == qs;
    } else {
      SlugsAppend(m, qs, rest[..|rest| - 1]);
      assert (qs + rest)[..|qs + rest| - 1] == qs + rest[..|rest| - 1];
    }
  }

  lemma {:induction false} SlugOrderAppend(order: seq<string>, qs: seq<Option<Question>>, rest: seq<Option<Question>>)
    ensures SlugOrderAfter(order, qs + rest) == SlugOrderAfter(SlugOrderAfter(order, qs), rest)
  {
    if rest == [] {
      assert qs + rest == qs;
    } else {
      SlugOrderAppend(order, qs, rest[..|rest| - 1]);
      assert (qs + rest)[..|qs + rest| - 1] == qs + rest[..|rest| - 1];
    }
  }

  lemma {:induction false} TopicsAppend(m: map<string, seq<Question>>, qs: seq<Option<Question>>, rest: seq<Option<Question>>)
    ensures TopicsAfter(m, qs + rest) == TopicsAfter(TopicsAfter(m, qs), rest)
  {
    if rest == [] {
      assert qs + rest == qs;
    } else {
      TopicsAppend(m, qs, rest[..|rest| - 1]);
      assert (qs + rest)[..|qs + rest| - 1] == qs + rest[..|rest| - 1];
    }
  }

  /** Indexing `qs + rest` is indexing `qs`, then `rest`. */
  lemma IndexingAppends(bySlug: map<string, Question>, order: seq<string>, byTopic: map<string, seq<Question>>,
                        qs: seq<Option<Question>>, rest: seq<Option<Question>>)
    ensures SlugsAfter(bySlug, qs + rest) == SlugsAfter(SlugsAfter(bySlug, qs), rest)
    ensures SlugOrderAfter(order, qs + rest) == SlugOrderAfter(SlugOrderAfter(order, qs), rest)
    ensures TopicsAfter(byTopic, qs + rest) == TopicsAfter(TopicsAfter(byTopic, qs), rest)
  {
    SlugsAppend(bySlug, qs, rest);
    SlugOrderAppend(order, qs, rest);
    TopicsAppend(byTopic, qs, rest);
  }

  lemma TagOneMore(m: map<string, seq<Question>>, q: Question, tags: seq<string>, k: nat)
    requires k < |tags|
    ensures TagsAfter(m, q, tags[..k + 1])
         == var before := TagsAfter(m, q, tags[..k]);
            if tags[k] != "" then before[tags[k] := Lookup(before, tags[k]) + [q]] else before
  {
    assert tags[..k + 1][..k] == tags[..k];
  }

  /** Appending a question under its tags keeps the topic invariant. */
  lemma {:induction false} TagsAfterWellFormed(m: map<string, seq<Question>>, q: Question, tags: seq<string>)
    requires WellFormedTopics(m)
    requires q.title.Some?
    requires forall k :: 0 <= k < |tags| ==> tags[k] in q.topicTags
    ensures WellFormedTopics(TagsAfter(m, q, tags))
  {
    if tags != [] {
      TagsAfterWellFormed(m, q, tags[..|tags| - 1]);
    }
  }

  /** Indexing more questions keeps `slugOrder` the duplicate-free list
      of the keys of `questionsBySlug`. */
  lemma {:induction false} SlugOrderTracksKeys(bySlug: map<string, Question>, order: seq<string>, qs: seq<Option<Question>>)
    requires Distinct(order)
    requires forall slug :: slug in bySlug <==> slug in order
    ensures Distinct(SlugOrderAfter(order, qs))
    ensures forall slug :: slug in SlugsAfter(bySlug, qs) <==> slug in SlugOrderAfter(order, qs)
  {
    if qs != [] {
      var init := qs[..|qs| - 1];
      SlugOrderTracksKeys(bySlug, order, init);
      var q := qs[|qs| - 1];
      var before := SlugOrderAfter(order, init);
      if Indexed(q) && Slug(q.value.title.value) !in before {
        var slug := Slug(q.value.title.value);
        assert forall k :: 0 <= k < |before| ==> (before + [slug])[k] == before[k];
      }
    }
  }

  /** Indexing more questions keeps every question under its own slug. */
  lemma {:induction false} SlugsAfterKeyed(bySlug: map<string, Question>, qs: seq<Option<Question>>)
    requires KeyedBySlug(bySlug)
    ensures KeyedBySlug(SlugsAfter(bySlug, qs))
  {
    if qs != [] {
      SlugsAfterKeyed(bySlug, qs[..|qs| - 1]);
    }
  }

  /** Indexing more questions keeps the topic invariant. */
  lemma {:induction false} TopicsAfterWellFormed(byTopic: map<string, seq<Question>>, qs: seq<Option<Question>>)
    requires WellFormedTopics(byTopic)
    ensures WellFormedTopics(TopicsAfter(byTopic, qs))
  {
    if qs != [] {
      var init := qs[..|qs| - 1];
      TopicsAfterWellFormed(byTopic, init);
      var q := qs[|qs| - 1];
      if Indexed(q) {
        TagsAfterWellFormed(TopicsAfter(byTopic, init), q.value, q.value.topicTags);
      }
    }
  }

  /** Indexing more questions keeps the index invariant. */
  lemma IndexingKeepsValid(bySlug: map<string, Question>, order: seq<string>,
                           byTopic: map<string, seq<Question>>, qs: seq<Option<Question>>)
    requires ValidIndex(bySlug, order, byTopic)
    ensures ValidIndex(SlugsAfter(bySlug, qs), SlugOrderAfter(order, qs), TopicsAfter(byTopic, qs))
  {
    SlugOrderTracksKeys(bySlug, order, qs);
    SlugsAfterKeyed(bySlug, qs);
    TopicsAfterWellFormed(byTopic, qs);
  }

  /** A slug maps to the LAST indexed question of `qs` with that slug:
      earlier ones are overwritten. */
  lemma {:induction false} LastQuestionWins(m: map<string, Question>, qs: seq<Option<Question>>, slug: string, i: nat)
    requires i < |qs| && HasSlug(qs[i], slug)
    requires forall j :: i < j < |qs| ==> !HasSlug(qs[j], slug)
    ensures slug in SlugsAfter(m, qs) && SlugsAfter(m, qs)[slug] == qs[i].value
  {
    if i < |qs| - 1 {
      LastQuestionWins(m, qs[..|qs| - 1], slug, i);
    }
  }

  /** A slug that no indexed question of `qs` has is left as it was. */
  lemma {:induction false} OtherSlugsUntouched(m: map<string, Question>, qs: seq<Option<Question>>, slug: string)
    requires forall j :: 0 <= j < |qs| ==> !HasSlug(qs[j], slug)
    ensures slug in SlugsAfter(m, qs) <==> slug in m
    ensures slug in m ==> SlugsAfter(m, qs)[slug] == m[slug]
  {
    if qs != [] {
      OtherSlugsUntouched(m, qs[..|qs| - 1], slug);
    }
  }

  lemma {:induction false} RepeatOneMore(q: Question, n: nat)
    ensures Repeat(q, n + 1) == Repeat(q, n) + [q]
  {
  }

  /** Tagging a question appends it once per occurrence of the tag. */
  lemma {:induction false} TagsAfterLookup(m: map<string, seq<Question>>, q: Question, tags: seq<string>, topic: string)
    ensures Lookup(TagsAfter(m, q, tags), topic)
         == Lookup(m, topic) + (if topic != "" then Repeat(q, Count(tags, topic)) else [])
  {
    if tags != [] {
      var init, last := tags[..|tags| - 1], tags[|tags| - 1];
      var before := TagsAfter(m, q, init);
      TagsAfterLookup(m, q, init, topic);
      assert Count(tags, topic) == Count(init, topic) + (if last == topic then 1 else 0);
      if last == topic && topic != "" {
        assert TagsAfter(m, q, tags) == before[topic := Lookup(before, topic) + [q]];
        RepeatOneMore(q, Count(init, topic));
      } else {
        assert Lookup(TagsAfter(m, q, tags), topic) == Lookup(before, topic);
      }
    }
  }

  /** `questions_by_topic[t]` gains the indexed questions of `qs` in corpus
      order, once per occurrence of tag `t` (so a question whose slug was
      later overwritten stays listed, and a repeated tag lists it twice). */
  lemma {:induction false} TopicListsInCorpusOrder(m: map<string, seq<Question>>, qs: seq<Option<Question>>, topic: string)
    ensures Lookup(TopicsAfter(m, qs), topic) == Lookup(m, topic) + TopicOccurrences(qs, topic)
  {
    if qs != [] {
      var init := qs[..|qs| - 1];
      TopicListsInCorpusOrder(m, init, topic);
      var q := qs[|qs| - 1];
      if Indexed(q) {
        TagsAfterLookup(TopicsAfter(m, init), q.value, q.value.topicTags, topic);
      }
    }
  }
}
