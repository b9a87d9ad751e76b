# LeetCode coach: a verified model of the analysis core

The system coaches a LeetCode user. It loads a corpus of contest questions into
an in-memory index (`DataManager`). It then analyses the user's recent
submissions and contest history:

- **topic gaps**: topics of the index that the user has not solved yet, each
  with up to 5 Easy or Medium questions to practise;
- **nemesis problems**: slugs that took more than 2 attempts or were never
  accepted, ranked by attempts, top 5;
- **related problems**: for each nemesis question, every 3-tag combination of
  its tags, with up to 4 other questions that carry all three tags;
- **unsolved contests**: attended contests that were not fully solved, at most 5.

The coaching plan puts these three analyses in front of a language model. It
then strips the model's reply of whitespace and of a Markdown JSON fence before
it parses the reply.

Each module of the model matches one part of the program:

| module | file | models |
|---|---|---|
| `Corpus` | corpus.dfy | the question and contest records; `Option`/`Result`; `Take` (a Python slice `[:n]`) |
| `Slugs` | slugs.dfy | `_create_slug`: lower-case the title, turn each run of non-word characters into `-`, strip `-` at both ends |
| `Index` | data_manager.dfy | the class `DataManager`. Its fields are reassigned by its methods. The nested indexing loop is proved against fold functions over the corpus. |
| `Submissions` | submissions.dfy | the per-slug fold `submission_counts` that two analyses share: a loop proved against per-slug specification functions |
| `Nemesis` | nemesis.dfy | `find_nemesis_problems`: the filter, a stable descending sort by attempts, and the top 5 |
| `TopicGaps` | topic_gaps.dfy | `analyze_topic_gaps`: loops over Python sets. The iteration order is left unspecified with `:|`. |
| `Related` | related.dfy | `find_related_problems`: `itertools.combinations(·, 3)`, the sorted `combo_key`, and the capped scan of the index in its dict insertion order |
| `Contests` | contests.dfy | `analyze_unsolved_contest_problems` |
| `Coach` | llm_coach.dfy | `generate_coaching_plan`: the composition of the analyses and the cleaning of the reply |

Python dicts keep their keys in insertion order, and the program relies on that
order in several places. The model therefore carries the order explicitly:
`DataManager.slugOrder`, `Submissions.FirstSeen`, and the gap order in
`TopicGaps.CollectGaps`.

Two details of the code shape the analyses:

- Nemesis problems are the slugs with more than 2 attempts or never accepted,
  and the top 5 are kept (app/analyzer.py:79-87).
- The topic-gap analysis excludes only slugs with more than 2 attempts, not
  every nemesis slug (app/analyzer.py:23, 43).

## Model

| member | source | states |
|---|---|---|
| Slugs.Lower | app/analyzer.py:6 | lower-casing one character yields no upper-case letter, keeps word/non-word class, and fixes non-upper characters |
| Slugs.SkipNonWordSuffix | app/analyzer.py:6 | skipping a run of non-word characters leaves a suffix of the input that is empty or starts with a word character |
| Slugs.LowerAllAt | app/analyzer.py:6 | `title.lower()` keeps the length and lower-cases each character in place |
| Slugs.CollapseShape | app/analyzer.py:6 | after `re.sub(r'\W+', '-', ·)` every character is `-` or a word character, no two `-` are adjacent, and a leading word character is kept |
| Slugs.CollapseKeepsLowercase | app/analyzer.py:6 | the substitution introduces no upper-case letter |
| Slugs.TrimLeadingShape | app/analyzer.py:6 | `lstrip('-')` leaves a suffix not starting with `-` |
| Slugs.TrimTrailingShape | app/analyzer.py:6 | `rstrip('-')` leaves a prefix not ending with `-` |
| Slugs.SlugShape | app/analyzer.py:5-6 | every slug is lower-case word characters separated by single `-`, with no `-` at either end |
| Slugs.CollapseFixesSlugShape | app/analyzer.py:6 | the substitution leaves a string already in slug shape unchanged |
| Slugs.SlugOfSlug | app/analyzer.py:5-6 | a string in slug shape is its own slug |
| Slugs.SlugIdempotent | app/analyzer.py:5-6 | `_create_slug(_create_slug(t)) == _create_slug(t)` |
| Index.DataManager.constructor | app/data_manager.py:7-9 | a new index is empty and satisfies the index invariant |
| Index.DataManager.LoadAndIndex | app/data_manager.py:11-39 | an unreadable file leaves the index unchanged; otherwise each of the three fields becomes its fold over the corpus questions in contest-then-question order, and the invariant is kept |
| Index.DataManager.IndexContest | app/data_manager.py:27-39 | one contest's question loop advances each field by exactly that contest's questions |
| Index.DataManager.IndexQuestion | app/data_manager.py:28-39 | a question without a title changes nothing; a titled one is stored under its slug (first-insertion order kept) and appended under its tags |
| Index.DataManager.AddUnderTags | app/data_manager.py:34-39 | appends the question under every non-empty tag name, in tag order, creating missing lists |
| Index.DataManager.QuestionBySlug | app/data_manager.py:42-43 | `Some` of the stored question exactly when the slug is a key, `None` otherwise; a found question is titled and its title has that slug |
| Index.DataManager.QuestionsByTopic | app/data_manager.py:45-46 | the topic's list or the empty list; every listed question is titled and carries the topic |
| Index.SlugsAppend | app/data_manager.py:21-32 | indexing `qs + rest` into `questions_by_slug` is indexing `qs`, then `rest` |
| Index.SlugOrderAppend | app/data_manager.py:21-32 | the same for the key insertion order |
| Index.TopicsAppend | app/data_manager.py:21-39 | the same for `questions_by_topic` |
| Index.IndexingAppends | app/data_manager.py:21-39 | the three appends together (the outer loop's step) |
| Index.TagOneMore | app/data_manager.py:34-39 | one more tag extends the tag fold by that tag's append |
| Index.TagsAfterWellFormed | app/data_manager.py:34-39 | appending a titled question under its own tags keeps every topic list non-empty and made of questions carrying the topic |
| Index.SlugOrderTracksKeys | app/data_manager.py:32 | the insertion order stays duplicate-free and holds exactly the keys of `questions_by_slug` |
| Index.SlugsAfterKeyed | app/data_manager.py:28-32 | every key of `questions_by_slug` stays the slug of its question's title |
| Index.TopicsAfterWellFormed | app/data_manager.py:27-39 | indexing keeps the topic invariant |
| Index.IndexingKeepsValid | app/data_manager.py:21-39 | indexing any questions keeps the whole index invariant |
| Index.LastQuestionWins | app/data_manager.py:32 | a slug maps to the last indexed question with that slug; earlier ones are overwritten |
| Index.OtherSlugsUntouched | app/data_manager.py:32 | a slug no indexed question has keeps its presence and value |
| Index.RepeatOneMore | app/data_manager.py:39 | proof step (one unfolding of `Repeat`, used by TagsAfterLookup): one more repetition appends the question once |
| Index.TagsAfterLookup | app/data_manager.py:34-39 | tagging a question appends it once per occurrence of the topic among its tags |
| Index.TopicListsInCorpusOrder | app/data_manager.py:21-39 | a topic's list gains the titled questions of the corpus that carry it, in corpus order, repeated per occurrence of the tag (an overwritten slug stays listed) |
| Submissions.Tally | app/analyzer.py:15-22 | the fold's key order is the feed's distinct slugs in first-appearance order, and each slug maps to (some submission accepted, number of submissions) |
| Submissions.TalliesOneMore | app/analyzer.py:16-22 | one more submission updates only its own slug's entry, to (ever accepted, attempts) over the longer feed |
| Submissions.FeedOneMore | app/analyzer.py:16-22 | one more submission adds 1 to the attempts of its own slug only, and makes that slug accepted exactly when it is accepted |
| Submissions.FirstSeenOneMore | app/analyzer.py:18-19 | one more submission appends its slug to the key order exactly when the slug is new |
| Submissions.FirstSeenMembers | app/analyzer.py:16-19 | a slug is a key of the fold exactly when some submission has it |
| Submissions.FirstSeenDistinct | app/analyzer.py:18-19 | each slug is a key once |
| Submissions.AttemptsPositive | app/analyzer.py:18-20 | a slug's attempt count is positive exactly when it is a key |
| Submissions.SumAttemptsOneMore | app/analyzer.py:20 | one more submission adds 1 to the attempts summed over any key list that holds its slug, and 0 otherwise |
| Submissions.AttemptsAddUp | app/analyzer.py:16-20 | the attempts of all keys add up to the length of the feed |
| Submissions.FirstIndexIsFirst | app/analyzer.py:18-19 | `FirstIndex` is the position of the first submission with the slug |
| Submissions.FirstSeenInFeedOrder | app/analyzer.py:18-19 | the keys are ordered by their first appearance in the feed |
| Nemesis.FindNemesisProblems | app/analyzer.py:65-87 | an error with "Could not fetch submissions." exactly for an empty feed; otherwise the top 5 of the sorted filtered fold |
| Nemesis.CandidateMembers | app/analyzer.py:80-83 | an entry is kept exactly when its slug is a key with more than 2 attempts or never accepted, paired with its attempts |
| Nemesis.InsertPermutes | app/analyzer.py:86 | insertion keeps the multiset of entries |
| Nemesis.RankedCons | app/analyzer.py:86 | proof step for InsertRanked: an entry ranked before every entry of a ranking heads a longer ranking |
| Nemesis.InsertRanked | app/analyzer.py:86 | inserting an entry seen earlier in the feed than all others keeps the ranking |
| Nemesis.SortPermutes | app/analyzer.py:86 | `sorted` is a permutation |
| Nemesis.SortRanks | app/analyzer.py:86 | sorting entries listed in feed order yields non-increasing attempts, with ties kept in feed order (the sort is stable) |
| Nemesis.CandidatesInFeedOrder | app/analyzer.py:80-83 | the dict comprehension keeps the fold's feed order |
| Nemesis.NemesisQualify | app/analyzer.py:79-87 | at most 5 entries, each a slug of the feed with its attempts, which took more than 2 attempts or was never accepted |
| Nemesis.NemesisRanked | app/analyzer.py:85-87 | along the result, attempts never increase, and equal attempts appear in order of first appearance |
| Nemesis.NemesisOmitsOnlyLower | app/analyzer.py:79-87 | a qualifying slug is left out only when 5 entries are kept, each with at least as many attempts |
| Nemesis.OmittedRankedBelow | app/analyzer.py:86-87 | an entry beyond the first 5 of a ranking ranks below each of them |
| Nemesis.TakeKeeps | app/analyzer.py:87 | proof step for NemesisOmitsOnlyLower: an entry at a position below 5 survives `[:5]` |
| TopicGaps.CollectSolvedTopics | app/analyzer.py:25-30 | a topic is collected exactly when some solved slug found in the index carries it, whatever the set's iteration order |
| TopicGaps.AddTags | app/analyzer.py:29-30 | adds exactly the question's tag names |
| TopicGaps.SolvedTopicsOneMore | app/analyzer.py:26-30 | one more solved slug adds exactly its question's tags |
| TopicGaps.CollectSuggestions | app/analyzer.py:39-46 | the scan yields the first 5 suggestible slugs of the topic list, in list order |
| TopicGaps.EligiblePrefix | app/analyzer.py:40-46 | the slugs found in a prefix of the list are a prefix of those found in the whole list |
| TopicGaps.EligibleSound | app/analyzer.py:40-44 | every slug the scan finds is that of a suggestible question of the list |
| TopicGaps.EligibleComplete | app/analyzer.py:40-44 | the slug of every suggestible question of the list is found |
| TopicGaps.AnalyzeTopicGaps | app/analyzer.py:8-50 | an error with "Could not fetch user submissions." exactly for an empty feed; otherwise at most 5 topics, as many as there are gap topics up to 5, each an unsolved topic mapped to its suggestions |
| TopicGaps.CollectGaps | app/analyzer.py:35-48 | the gap order is duplicate-free and holds exactly the unsolved topics with a suggestion; each maps to its suggestions |
| TopicGaps.KeptCardinality | app/analyzer.py:50 | keeping the first 5 of a duplicate-free key order keeps min(5, n) distinct keys |
| TopicGaps.SolvedSlugsAreAccepted | app/analyzer.py:13-22 | `solved_slugs` are exactly the fold's keys marked accepted |
| TopicGaps.HeavySlugsAreOverTwo | app/analyzer.py:23 | the excluded slugs are exactly those with more than 2 attempts |
| TopicGaps.EligibleMembers | app/analyzer.py:40-44 | a slug is found exactly when some listed question is Easy or Medium, titled with that slug, and the slug is neither solved nor over 2 attempts |
| TopicGaps.GapTopicIsUnsolved | app/analyzer.py:25-48 | every gap topic is a topic of the index that no solved question carries, with 1 to 5 suggestions |
| TopicGaps.SuggestionQualifies | app/analyzer.py:39-46 | every suggestion is the slug of an Easy or Medium question listed under the topic, never accepted, attempted at most twice |
| TopicGaps.DroppedTopicsHaveNoSuggestion | app/analyzer.py:47-48 | an unsolved topic of the index is dropped only when it has no suggestion |
| Related.FindRelatedProblems | app/analyzer.py:90-120 | the result is the fold of the nemesis slugs over the index scanned in insertion order |
| Related.RelateCombos | app/analyzer.py:104-118 | the loop over one slug's combinations is the fold over those combinations |
| Related.RelateCombo | app/analyzer.py:105-118 | one combination: its key is created when missing, then the index scan extends its list |
| Related.ScanIndex | app/analyzer.py:110-118 | the scan with its early `break` equals the full scan that appends only below 4 |
| Related.ScanSaturated | app/analyzer.py:111-112 | once a list holds 4 slugs, the rest of the scan changes nothing |
| Related.PairsWithMembers | app/analyzer.py:102 | pairs starting at `x` are exactly `x` with a later tag |
| Related.PairsSound | app/analyzer.py:102 | every pair is the tags at two positions i < j |
| Related.PairsComplete | app/analyzer.py:102 | the tags at any two positions i < j form a pair |
| Related.TriplesWithMembers | app/analyzer.py:102 | triples starting at `x` are exactly `x` before a pair |
| Related.CombosSound | app/analyzer.py:102 | every combination is the tags at three positions i < j < k |
| Related.CombosComplete | app/analyzer.py:102 | the tags at any three positions i < j < k form a combination |
| Related.LexTotal | app/analyzer.py:105 | string `<=` is total |
| Related.LexAntisymmetric | app/analyzer.py:105 | string `<=` is antisymmetric |
| Related.LexTransitive | app/analyzer.py:105 | string `<=` is transitive |
| Related.SortSorts | app/analyzer.py:105 | `sorted(combo)` is ordered and a permutation of the combination |
| Related.SortedBounds | app/analyzer.py:105 | in a sorted triple the first name is least and the last greatest |
| Related.SortedUnique | app/analyzer.py:105 | two sorted triples with the same names are equal |
| Related.KeyIsCanonical | app/analyzer.py:105 | the key is the sorted names joined by ", ", so two combinations of the same names have the same key |
| Related.ScanAppends | app/analyzer.py:110-118 | the scan only appends, never past 4, and only index slugs other than the nemesis slug whose tags cover the combination |
| Related.ScanComplete | app/analyzer.py:110-118 | a scan ending below 4 appended every such slug |
| Related.ExtendsTransitive | app/analyzer.py:106-118 | proof step: lists growing by appends compose |
| Related.ServedKept | app/analyzer.py:106-118 | proof step: a key served by a scan stays served as its list grows |
| Related.ComboStepFacts | app/analyzer.py:105-118 | one combination creates its key, only appends, keeps the cap of 4, serves the combination, and appends only matching slugs |
| Related.CombosAfterFacts | app/analyzer.py:104-118 | all combinations of one slug: lists only grow, the cap holds, and the keys added are those of the combinations |
| Related.CombosAfterServed | app/analyzer.py:104-118 | every combination processed stays served |
| Related.CombosAfterJustified | app/analyzer.py:104-118 | every listed slug was already listed or matches a processed combination |
| Related.RelatedAfterFacts | app/analyzer.py:92-118 | across nemesis slugs: lists only grow, the cap holds, and the keys are those of the combinations of the slugs found with 3 or more tags |
| Related.RelatedAfterServed | app/analyzer.py:92-118 | every combination of every processed slug stays served |
| Related.RelatedAfterSplit | app/analyzer.py:92 | proof step: processing one more nemesis slug is one more step of the fold |
| Related.JustifiedGrows | app/analyzer.py:92 | proof step: a reason found among earlier nemesis slugs stays valid for more |
| Related.RelatedAfterJustified | app/analyzer.py:92-118 | every listed slug has a nemesis slug and combination it matches |
| Related.RelatedKeys | app/analyzer.py:92-107 | a key is present exactly when it is the key of a combination of the tags of a nemesis slug found in the index with at least 3 tags |
| Related.RelatedSound | app/analyzer.py:110-118 | no list holds more than 4 slugs, and every listed slug is an index slug, not the nemesis slug it came from, whose tags cover the key's combination |
| Related.RelatedComplete | app/analyzer.py:110-118 | a key whose list is not full lists every index slug covering a combination behind it |
| Contests.AnalyzeUnsolvedContestProblems | app/analyzer.py:52-63 | an error with "Could not fetch contest history." exactly when the history or its key is missing; otherwise the first 5 unsolved titles |
| Contests.UnsolvedTitlesInOrder | app/analyzer.py:57-61 | the titles are exactly those of the attended, not fully solved contests, in history order, none skipped |
| Contests.UnsolvedContestsBounded | app/analyzer.py:57-63 | at most 5 titles, each that of a contest left unsolved, in history order |
| Coach.GenerateCoachingPlan | app/llm_coach.py:9-42 | the three analyses are the topic-gap report, the nemesis result, and the related problems of the nemesis slugs; the plan is the parsed cleaned reply or the error |
| Coach.StripLeftShape | app/llm_coach.py:33 | the leading trim removes exactly a whitespace prefix, leaving no leading whitespace |
| Coach.StripRightShape | app/llm_coach.py:33 | the trailing trim removes exactly a whitespace suffix, leaving no trailing whitespace |
| Coach.StripShape | app/llm_coach.py:33 | `strip()` yields a slice between two whitespace runs, with no whitespace at either end |
| Coach.StripLeftPadded | app/llm_coach.py:33 | whitespace before text not starting with whitespace is removed exactly |
| Coach.StripRightPadded | app/llm_coach.py:33 | whitespace after text not ending with whitespace is removed exactly |
| Coach.StripPadded | app/llm_coach.py:33 | `strip()` gives back the text between two whitespace runs |
| Coach.CleanReplyIsSlice | app/llm_coach.py:33-37 | the cleaned reply is a slice of the stripped reply that loses at most 7 characters in front and 3 behind |
| Coach.LeadingFence | app/llm_coach.py:34-35 | a leading "```json" is removed, exactly 7 characters; otherwise nothing is removed in front |
| Coach.TrailingFence | app/llm_coach.py:36-37 | a trailing "```" is removed, exactly 3 characters; otherwise nothing is removed behind |
| Coach.NoFenceUnchanged | app/llm_coach.py:33-37 | with neither fence, only the whitespace trim applies |
| Coach.FencedReplyRoundTrip | app/llm_coach.py:33-37 | a fenced JSON body, padded with whitespace, is cleaned back to the body |
| Coach.PlanErrors | app/llm_coach.py:31-42 | the plan is an error exactly when the model call or the parse fails, with the message "Error generating coaching plan: " followed by the cause; otherwise it is the parse of the cleaned reply |
| Coach.NemesisSlugsInOrder | app/llm_coach.py:12 | the slugs handed on are the nemesis entries' slugs, in the result's order |
| Coach.NoRelatedOnError | app/llm_coach.py:11-12 | corrected: when the nemesis analysis fails there are no related problems |
| Coach.ErrorSlugLookedUp | app/llm_coach.py:11-12 | as written: when the nemesis analysis fails and the index holds a question with slug "error" and 3 or more tags, related problems are produced |

## Left out

- Fetching from LeetCode (`leetcode_client`) is not part of this model. The fetched feed, history and profile are inputs: a failed or empty fetch is the empty feed or `None`.
- The two submission fetches made by `generate_coaching_plan` (one per analysis) are two independent inputs.
- Reading the corpus file is not modelled. The file is an input that is either unreadable (missing file or invalid JSON) or parsed.
- The warning that `load_and_index_data` prints to stdout is left out.
- The language-model call and `json.loads` are parameters: the reply is a `Result<string>`, and parsing is a function returning `Result`. The prompt text built at app/llm_coach.py:14-29 is left out. It only feeds the model call.
- `generate_topic_gap_report`, `generate_nemesis_problem_advice` and `generate_performance_summary` are left out. They only serialise results with `json.dumps` or reshape a fetched profile.
- `re`'s Unicode `\W` and `str.lower()` are modelled for ASCII only. Non-ASCII letters count as non-word characters and are not lower-cased.
- `str.isspace()` is modelled by its fixed character list.
- Records with missing keys are left out: each tag carries a name, and each contest record carries `attended`, `problemsSolved`, `totalProblems` and a title. Where `analyze_topic_gaps`, `find_related_problems` or `analyze_unsolved_contest_problems` index such a key directly, Python raises `KeyError`. The index skips a tag whose name is missing or empty; the model represents that as the empty name.
- Contests.AnalyzeUnsolvedContestProblems: a history whose `userContestRankingHistory` key is present but `null` passes the guard at app/analyzer.py:54 and makes the loop at line 58 raise `TypeError`; the model has no such value (`ranking` is either missing or a list), so this raising case is not modelled.
- The key order of `find_related_problems`'s result is not stated. Its keys, lists and list order are.
- TopicGaps.AnalyzeTopicGaps: does not determine which gap topics survive the cut at 5. The set of unsolved topics is iterated in an order Python does not specify, so the contract states only that the kept topics are gap topics, how many are kept, and what each maps to.
- `Coach.GenerateCoachingPlan` hands `find_related_problems` the corrected nemesis slugs (no slugs on error), as recorded under Findings.
- The `leetcode_session` argument mismatch in the service layer is outside the modelled core.

## Findings

| source | as written | input that shows it | evidently intended | confidence | as-written member | corrected member |
|---|---|---|---|---|---|---|
| app/llm_coach.py:11-12 with app/analyzer.py:67-68, 92-93 | when the submissions cannot be fetched, `find_nemesis_problems` returns `{"error": "Could not fetch submissions."}`, and `find_related_problems` iterates that dict as if `"error"` were a nemesis slug and looks it up in the index | an empty submission feed and an index holding a question titled "Error" with 3 or more tags: related problems are reported for that question | no related problems when the nemesis analysis failed | medium, not executed | Coach.NemesisSlugsAsWritten, Coach.ErrorSlugLookedUp | Coach.NemesisSlugs, Coach.NoRelatedOnError |
