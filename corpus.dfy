/** Values shared by the question index and the analyses: the shape of a
    corpus question, the optional and error-carrying results the Python code
    expresses with None and {"error": ...} dictionaries, and a few sequence
    helpers (Python's slice [:n], duplicate-free lists). */
module Corpus {

  datatype Option<+T> = None | Some(value: T)

  /** An analysis either succeeds or yields a dictionary whose only key is
      "error"; `message` is that key's value. */
  datatype Result<+T> = Ok(value: T) | Err(message: string)

  /** One question of the contest corpus. Every key of the JSON object may be
      missing: a missing "title" or "difficulty" is None, a missing
      "topicTags" is the empty list. A tag is represented by its "name". */
  datatype Question = Question(title: Option<string>, difficulty: Option<string>, topicTags: seq<string>)

  /** One entry of the corpus file: the contest's key and its "questions"
      list (empty when the key is missing); a null question is None. */
  datatype Contest = Contest(slug: string, questions: seq<Option<Question>>)

  function Min(a: int, b: int): int { if a <= b then a else b }

  /** Python's s[:n] for n >= 0. */
  function Take<T>(s: seq<T>, n: nat): (r: seq<T>)
    ensures |r| == Min(|s|, n)
    ensures r == s[..|r|]
  {
    if |s| <= n then s else s[..n]
  }

  predicate Distinct<T(==)>(s: seq<T>)
  {
    forall i, j :: 0 <= i < j < |s| ==> s[i] != s[j]
  }

  function Elements<T>(s: seq<T>): set<T>
  {
    set x | x in s
  }

  /** A list without duplicates has as many elements as its set. */
  lemma {:induction false} DistinctCardinality<T>(s: seq<T>)
    requires Distinct(s)
    ensures |Elements(s)| == |s|
  {
    if s != [] {
      var last := s[|s| - 1];
      var init := s[..|s| - 1];
      assert Distinct(init);
      DistinctCardinality(init);
      assert last !in init;
      assert Elements(s) == Elements(init) + {last};
    }
  }
}
