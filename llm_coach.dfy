/** The deterministic parts of `generate_coaching_plan` (app/llm_coach.py):
    the three analyses it composes, and the cleaning of the model's reply
    (strip whitespace, drop a leading "```json", drop a trailing "```")
    before it is parsed. The model call and JSON parsing are parameters. */
module Coach {
  import opened Corpus
  import opened Submissions
  import opened Index
  import opened Nemesis
  import opened TopicGaps
  import opened Related

  // ---------------------------------------------------------------------
  // str.strip()

  /** Python's `str.isspace` for one character. */
  predicate IsSpace(c: char)
  {
    || ('\t' <= c <= '\r')                 // \t \n \v \f \r
    || ('\U{1C}' <= c <= '\U{1F}')          // file, group, record and unit separators
    || c == ' ' || c == '\U{85}' || c == '\U{A0}' || c == '\U{1680}'
    || ('\U{2000}' <= c <= '\U{200A}')
    || c == '\U{2028}' || c == '\U{2029}' || c == '\U{202F}' || c == '\U{205F}' || c == '\U{3000}'
  }

  predicate AllSpace(s: string)
  {
    forall i :: 0 <= i < |s| ==> IsSpace(s[i])
  }

  function StripLeft(s: string): string
  {
    if s != [] && IsSpace(s[0]) then StripLeft(s[1..]) else s
  }

  function StripRight(s: string): string
  {
    if s != [] && IsSpace(s[|s| - 1]) then StripRight(s[..|s| - 1]) else s
  }

  /** `str.strip()` */
  function Strip(s: string): string
  {
    StripRight(StripLeft(s))
  }

  // ---------------------------------------------------------------------
  // Lines 33-37

  predicate StartsWith(s: string, prefix: string)
  {
    |prefix| <= |s| && s[..|prefix|] == prefix
  }

  predicate EndsWith(s: string, suffix: string)
  {
    |suffix| <= |s| && s[|s| - |suffix|..] == suffix
  }

  /** `if text.startswith("```json"): text = text[7:]` */
  function DropJsonFence(t: string): string
  {
    if StartsWith(t, "```json") then t[7..] else t
  }

  /** `if text.endswith("```"): text = text[:-3]` */
  function DropFence(t: string): string
  {
    if EndsWith(t, "```") then t[..|t| - 3] else t
  }

  /** The text handed to `json.loads`. */
  function CleanReply(text: string): string
  {
    DropFence(DropJsonFence(Strip(text)))
  }

  // ---------------------------------------------------------------------
  // Lines 9-12 and 31-42

  /** The three analyses the prompt is built from. */
  datatype Analyses = Analyses(
    topicGaps: Result<map<string, seq<string>>>,
    nemesis: Result<seq<Entry>>,
    related: map<string, seq<string>>)

  /** The keys `find_related_problems` iterates when handed the nemesis
      result, corrected: an error result has no nemesis slugs. */
  function NemesisSlugs(r: Result<seq<Entry>>): seq<string>
  {
    if r.Err? then [] else EntrySlugs(r.value)
  }

  /** The keys `find_related_problems` iterates as written: the error
      dictionary `{"error": ...}` is iterated like a nemesis result, so
      "error" is looked up as a slug. */
  function NemesisSlugsAsWritten(r: Result<seq<Entry>>): seq<string>
  {
    if r.Err? then ["error"] else EntrySlugs(r.value)
  }

  function EntrySlugs(entries: seq<Entry>): seq<string>
  {
    if entries == [] then [] else [entries[0].0] + EntrySlugs(entries[1..])
  }

  /** The plan: the model's reply (or the exception raised while getting
      it), cleaned and handed to the JSON parser; any failure becomes the
      error dictionary. */
  function PlanFromReply<P>(reply: Result<string>, parse: string -> Result<P>): Result<P>
  {
    if reply.Err? then Err("Error generating coaching plan: " + reply.message)
    else
      var parsed := parse(CleanReply(reply.value));
      if parsed.Err? then Err("Error generating coaching plan: " + parsed.message) else parsed
  }

  /** `generate_coaching_plan(username, data_manager)`. The two analyses
      fetch the submission feed separately, so each receives its own feed;
      the model's reply and the JSON parser are parameters. */
  method GenerateCoachingPlan<P>(gapFeed: seq<Submission>, nemesisFeed: seq<Submission>, dm: DataManager,
                                 reply: Result<string>, parse: string -> Result<P>)
    returns (analyses: Analyses, plan: Result<P>)
    requires dm.Valid()
    ensures IsGapReport(gapFeed, dm.questionsBySlug, dm.questionsByTopic, analyses.topicGaps)
    ensures analyses.nemesis == (if nemesisFeed == [] then Err("Could not fetch submissions.") else Ok(TopNemesis(nemesisFeed)))
    ensures analyses.related == RelatedAfter(map[], NemesisSlugs(analyses.nemesis), dm.slugOrder, dm.questionsBySlug)
    ensures plan == PlanFromReply(reply, parse)
  {
    var topicGaps := AnalyzeTopicGaps(gapFeed, dm);
    var nemesis := FindNemesisProblems(nemesisFeed);
    var related := FindRelatedProblems(NemesisSlugs(nemesis), dm);
    analyses := Analyses(topicGaps, nemesis, related);
    plan := PlanFromReply(reply, parse);
  }

  // ---------------------------------------------------------------------
  // Properties of the reply cleaning

  lemma {:induction false} StripLeftShape(s: string)
    ensures |StripLeft(s)| <= |s| && StripLeft(s) == s[|s| - |StripLeft(s)|..]
    ensures AllSpace(s[..|s| - |StripLeft(s)|])
    ensures StripLeft(s) == [] || !IsSpace(StripLeft(s)[0])
  {
    if s != [] && IsSpace(s[0]) {
      StripLeftShape(s[1..]);
      var k := |s| - |StripLeft(s)|;
      assert forall i :: 1 <= i < k ==> s[..k][i] == s[1..][..k - 1][i - 1];
    }
  }

  lemma {:induction false} StripRightShape(s: string)
    ensures |StripRight(s)| <= |s| && StripRight(s) == s[..|StripRight(s)|]
    ensures AllSpace(s[|StripRight(s)|..])
    ensures StripRight(s) == [] || !IsSpace(StripRight(s)[|StripRight(s)| - 1])
  {
    if s != [] && IsSpace(s[|s| - 1]) {
      var init := s[..|s| - 1];
      StripRightShape(init);
      var k := |StripRight(s)|;
      assert forall i :: k <= i < |s| - 1 ==> s[i] == init[i];
    }
  }

  /** `str.strip()` removes a run of whitespace from each end and nothing
      else: the result is a slice of the input that neither starts nor ends
      with whitespace. */
  lemma StripShape(s: string)
    ensures exists i, j :: 0 <= i <= j <= |s| && Strip(s) == s[i..j] && AllSpace(s[..i]) && AllSpace(s[j..])
    ensures Strip(s) == [] || (!IsSpace(Strip(s)[0]) && !IsSpace(Strip(s)[|Strip(s)| - 1]))
  {
    var left := StripLeft(s);
    StripLeftShape(s);
    StripRightShape(left);
    var i := |s| - |left|;
    var j := i + |Strip(s)|;
    assert Strip(s) == s[i..j];
    assert forall k :: j <= k < |s| ==> s[k] == left[|Strip(s)|..][k - j];
  }

  lemma {:induction false} StripLeftPadded(pad: string, t: string)
    requires AllSpace(pad)
    requires t == [] || !IsSpace(t[0])
    ensures StripLeft(pad + t) == t
  {
    if pad != [] {
      assert (pad + t)[1..] == pad[1..] + t;
      StripLeftPadded(pad[1..], t);
    }
  }

  lemma {:induction false} StripRightPadded(t: string, pad: string)
    requires AllSpace(pad)
    requires t == [] || !IsSpace(t[|t| - 1])
    ensures StripRight(t + pad) == t
  {
    if pad != [] {
      assert (t + pad)[..|t + pad| - 1] == t + pad[..|pad| - 1];
      StripRightPadded(t, pad[..|pad| - 1]);
    } else {
      assert t + pad == t;
    }
  }

  /** `str.strip()` gives back the text between two runs of whitespace. */
  lemma StripPadded(left: string, core: string, right: string)
    requires AllSpace(left) && AllSpace(right)
    requires core != [] ==> !IsSpace(core[0]) && !IsSpace(core[|core| - 1])
    ensures Strip(left + core + right) == core
  {
    if core == [] {
      assert left + core + right == left + right;
      StripLeftPadded(left + right, []);
      assert left + right + [] == left + right;
    } else {
      assert left + core + right == left + (core + right);
      StripLeftPadded(left, core + right);
      StripRightPadded(core, right);
    }
  }

  /** The cleaned reply is a slice of the stripped reply that loses at most
      7 characters at the front and at most 3 at the back. */
  lemma CleanReplyIsSlice(text: string)
    ensures exists i, j :: 0 <= i <= 7 && 0 <= |Strip(text)| - j <= 3 && i <= j <= |Strip(text)|
                           && CleanReply(text) == Strip(text)[i..j]
  {
    var t := Strip(text);
    var i := if StartsWith(t, "```json") then 7 else 0;
    var u := t[i..];
    var j := if EndsWith(u, "```") then |t| - 3 else |t|;
    assert CleanReply(text) == t[i..j];
  }

  /** A leading "```json" is removed, exactly 7 characters; a leading fence
      without "json" is kept. */
  lemma LeadingFence(text: string)
    ensures StartsWith(Strip(text), "```json") ==> DropJsonFence(Strip(text)) == Strip(text)[7..]
    ensures !StartsWith(Strip(text), "```json") ==> StartsWith(Strip(text), CleanReply(text))
  {
  }

  /** A trailing "```" is removed, exactly 3 characters, whether or not a
      leading fence was removed. */
  lemma TrailingFence(text: string)
    ensures EndsWith(DropJsonFence(Strip(text)), "```") ==>
              CleanReply(text) + "```" == DropJsonFence(Strip(text))
    ensures !EndsWith(DropJsonFence(Strip(text)), "```") ==>
              CleanReply(text) == DropJsonFence(Strip(text))
  {
    var u := DropJsonFence(Strip(text));
    if EndsWith(u, "```") {
      assert u == u[..|u| - 3] + u[|u| - 3..];
    }
  }

  /** With neither fence present, only the whitespace trim applies. */
  lemma NoFenceUnchanged(text: string)
    requires !StartsWith(Strip(text), "```json") && !EndsWith(Strip(text), "```")
    ensures CleanReply(text) == Strip(text)
  {
  }

  /** A fenced JSON reply, with any whitespace around it, is cleaned to its
      body. */
  lemma FencedReplyRoundTrip(left: string, body: string, right: string)
    requires AllSpace(left) && AllSpace(right)
    ensures CleanReply(left + "```json" + body + "```" + right) == body
  {
    var core := "```json" + body + "```";
    assert left + "```json" + body + "```" + right == left + core + right;
    StripPadded(left, core, right);
    assert core[..7] == "```json";
    assert core[7..] == body + "```";
    assert (body + "```")[|body|..] == "```";
    assert (body + "```")[..|body|] == body;
  }

  // ---------------------------------------------------------------------
  // Properties of the composition

  /** Any failure yields the error dictionary: exactly when the model call
      failed or the cleaned reply did not parse, with the message prefixed
      by "Error generating coaching plan: ". */
  lemma PlanErrors<P>(reply: Result<string>, parse: string -> Result<P>)
    ensures PlanFromReply(reply, parse).Err? <==> reply.Err? || parse(CleanReply(reply.value)).Err?
    ensures PlanFromReply(reply, parse).Err? ==>
              StartsWith(PlanFromReply(reply, parse).message, "Error generating coaching plan: ")
    ensures PlanFromReply(reply, parse).Ok? ==> PlanFromReply(reply, parse) == parse(CleanReply(reply.value))
  {
  }

  /** The related problems are computed from the nemesis result alone: the
      slugs iterated are the ranked nemesis slugs, in order. */
  lemma {:induction false} NemesisSlugsInOrder(entries: seq<Entry>)
    ensures |EntrySlugs(entries)| == |entries|
    ensures forall k :: 0 <= k < |entries| ==> EntrySlugs(entries)[k] == entries[k].0
  {
    if entries != [] {
      NemesisSlugsInOrder(entries[1..]);
    }
  }

  /** Corrected: when the submissions could not be fetched there are no
      related problems. */
  lemma NoRelatedOnError(message: string, order: seq<string>, bySlug: map<string, Question>)
    ensures RelatedAfter(map[], NemesisSlugs(Err(message)), order, bySlug) == map[]
  {
  }

  /** As written: when the submissions could not be fetched and the index
      holds a question whose title has slug "error" (say "Error!") with at
      least 3 tags, related problems are produced for that question. */
  lemma ErrorSlugLookedUp(message: string, order: seq<string>, bySlug: map<string, Question>)
    requires "error" in bySlug && |bySlug["error"].topicTags| >= 3
    ensures RelatedAfter(map[], NemesisSlugsAsWritten(Err(message)), order, bySlug) != map[]
  {
    var tags := bySlug["error"].topicTags;
    var c := (tags[0], tags[1], tags[2]);
    CombosComplete(tags, 0, 1, 2);
    assert Source("error", c, ["error"], bySlug);
    RelatedKeys(["error"], order, bySlug, Key(c));
  }
}
