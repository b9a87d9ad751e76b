/** `find_related_problems` (app/analyzer.py): for every nemesis slug found
    in the index with at least 3 tags, every 3-combination of its tag names
    becomes a key (the three names sorted and joined with ", "); the index
    is scanned in insertion order and each other question whose tags cover
    the combination is appended under that key, at most 4 per key. */
module Related {
  import opened Corpus
  import opened Slugs
  import opened Index

  /** A 3-tuple of `itertools.combinations(topics, 3)`. */
  type Combo = (string, string, string)

  // ---------------------------------------------------------------------
  // itertools.combinations(topics, 3)

  /** The pairs (x, rest[j]) in order of j. */
  function PairsWith(x: string, rest: seq<string>): seq<(string, string)>
  {
    if rest == [] then [] else [(x, rest[0])] + PairsWith(x, rest[1..])
  }

  /** `itertools.combinations(t, 2)`: pairs of positions i < j, in
      lexicographic order of (i, j). */
  function Pairs(t: seq<string>): seq<(string, string)>
  {
    if |t| < 2 then [] else PairsWith(t[0], t[1..]) + Pairs(t[1..])
  }

  /** (x, p.0, p.1) for every pair p, in order. */
  function TriplesWith(x: string, ps: seq<(string, string)>): seq<Combo>
  {
    if ps == [] then [] else [(x, ps[0].0, ps[0].1)] + TriplesWith(x, ps[1..])
  }

  /** `itertools.combinations(t, 3)`: triples of positions i < j < k, in
      lexicographic order of (i, j, k). */
  function Combos(t: seq<string>): seq<Combo>
  {
    if |t| < 3 then [] else TriplesWith(t[0], Pairs(t[1..])) + Combos(t[1..])
  }

  // ---------------------------------------------------------------------
  // The key: ", ".join(sorted(combo))

  /** Python's `<=` on str: lexicographic by code point. */
  predicate LexLe(a: string, b: string)
  {
    if a == [] then true
    else if b == [] then false
    else if a[0] != b[0] then a[0] < b[0]
    else LexLe(a[1..], b[1..])
  }

  /** `sorted` of three strings. */
  function Sort3(c: Combo): Combo
  {
    var (a, b, d) := c;
    if LexLe(a, b) then
      if LexLe(b, d) then (a, b, d) else if LexLe(a, d) then (a, d, b) else (d, a, b)
    else
      if LexLe(a, d) then (b, a, d) else if LexLe(b, d) then (b, d, a) else (d, b, a)
  }

  function Join(c: Combo): string
  {
    c.0 + ", " + c.1 + ", " + c.2
  }

  /** `combo_key` */
  function Key(c: Combo): string
  {
    Join(Sort3(c))
  }

  /** `set(combo).issubset(q_topics)` */
  predicate Covers(tags: seq<string>, c: Combo)
  {
    c.0 in tags && c.1 in tags && c.2 in tags
  }

  // ---------------------------------------------------------------------
  // What the loops compute

  /** The scan of the index for nemesis slug `n` and combination `c`,
      starting from the key's current list: a question is appended when
      the list holds fewer than 4, it is not `n`, and its tags cover `c`. */
  function ScanAfter(list: seq<string>, n: string, c: Combo, order: seq<string>, bySlug: map<string, Question>): seq<string>
  {
    if order == [] then list
    else
      var before := ScanAfter(list, n, c, order[..|order| - 1], bySlug);
      var q := order[|order| - 1];
      if |before| < 4 && q != n && q in bySlug && Covers(bySlug[q].topicTags, c) then before + [q] else before
  }

  /** One combination: create the key if missing, then scan. */
  function ComboStep(m: map<string, seq<string>>, n: string, c: Combo, order: seq<string>, bySlug: map<string, Question>): map<string, seq<string>>
  {
    var key := Key(c);
    m[key := ScanAfter(if key in m then m[key] else [], n, c, order, bySlug)]
  }

  function CombosAfter(m: map<string, seq<string>>, n: string, cs: seq<Combo>, order: seq<string>, bySlug: map<string, Question>): map<string, seq<string>>
  {
    if cs == [] then m
    else ComboStep(CombosAfter(m, n, cs[..|cs| - 1], order, bySlug), n, cs[|cs| - 1], order, bySlug)
  }

  /** The nemesis slugs in order; one absent from the index or with fewer
      than 3 tags is skipped. */
  function RelatedAfter(m: map<string, seq<string>>, nemesis: seq<string>, order: seq<string>, bySlug: map<string, Question>): map<string, seq<string>>
  {
    if nemesis == [] then m
    else
      var before := RelatedAfter(m, nemesis[..|nemesis| - 1], order, bySlug);
      var n := nemesis[|nemesis| - 1];
      if n in bySlug && |bySlug[n].topicTags| >= 3 then CombosAfter(before, n, Combos(bySlug[n].topicTags), order, bySlug)
      else before
  }

  // ---------------------------------------------------------------------
  // The loops

  /** `find_related_problems(nemesis_problems, data_manager)`, given the keys
      of the nemesis result in order. */
  method FindRelatedProblems(nemesis: seq<string>, dm: DataManager) returns (related: map<string, seq<string>>)
    requires dm.Valid()
    ensures related == RelatedAfter(map[], nemesis, dm.slugOrder, dm.questionsBySlug)
  {
    related := map[];
    var i := 0;
    while i < |nemesis|
      invariant 0 <= i <= |nemesis|
      invariant related == RelatedAfter(map[], nemesis[..i], dm.slugOrder, dm.questionsBySlug)
    {
      var slug := nemesis[i];
      assert nemesis[..i + 1][..i] == nemesis[..i];
      var question := dm.QuestionBySlug(slug);
      if question.Some? {
        var topics := question.value.topicTags;
        if |topics| >= 3 {
          var combos := Combos(topics);
          related := RelateCombos(related, slug, combos, dm);
        }
      }
      i := i + 1;
    }
    assert nemesis[..i] == nemesis;
  }

  /** Lines 104-118: every combination of one nemesis slug's tags. */
  method RelateCombos(related: map<string, seq<string>>, slug: string, combos: seq<Combo>, dm: DataManager)
    returns (r: map<string, seq<string>>)
    requires dm.Valid()
    ensures r == CombosAfter(related, slug, combos, dm.slugOrder, dm.questionsBySlug)
  {
    r := related;
    var j := 0;
    while j < |combos|
      invariant 0 <= j <= |combos|
      invariant r == CombosAfter(related, slug, combos[..j], dm.slugOrder, dm.questionsBySlug)
    {
      assert combos[..j + 1][..j] == combos[..j];
      r := RelateCombo(r, slug, combos[j], dm);
      j := j + 1;
    }
    assert combos[..j] == combos;
  }

  /** Lines 105-118: one combination. Its key is created when missing, then
      the index is scanned for it. */
  method RelateCombo(related: map<string, seq<string>>, slug: string, combo: Combo, dm: DataManager)
    returns (r: map<string, seq<string>>)
    requires dm.Valid()
    ensures r == ComboStep(related, slug, combo, dm.slugOrder, dm.questionsBySlug)
  {
    r := related;
    var comboKey := Join(Sort3(combo));
    if comboKey !in r {
      r := r[comboKey := []];
    }
    var list := ScanIndex(r[comboKey], slug, combo, dm);
    r := r[comboKey := list];
  }

  /** Lines 110-118: scan `questions_by_slug` in insertion order, stopping
      once the list holds 4 slugs. */
  method ScanIndex(list: seq<string>, slug: string, combo: Combo, dm: DataManager) returns (r: seq<string>)
    requires dm.Valid()
    ensures r == ScanAfter(list, slug, combo, dm.slugOrder, dm.questionsBySlug)
  {
    var order := dm.slugOrder;
    r := list;
    var m := 0;
    while m < |order|
      invariant 0 <= m <= |order|
      invariant r == ScanAfter(list, slug, combo, order[..m], dm.questionsBySlug)
    {
      if |r| >= 4 {
        break;
      }
      var qSlug := order[m];
      assert order[..m + 1][..m] == order[..m] && order[..m + 1][m] == qSlug;
      assert qSlug in dm.questionsBySlug;
      if qSlug != slug {
        var qData := dm.questionsBySlug[qSlug];
        var qTopics := Elements(qData.topicTags);
        if {combo.0, combo.1, combo.2} <= qTopics {
          r := r + [qSlug];
        }
      }
      m := m + 1;
    }
    ScanSaturated(list, slug, combo, order, m, dm.questionsBySlug);
  }

  // ---------------------------------------------------------------------
  // Step lemmas

  /** Once the list holds 4 slugs the rest of the scan changes nothing. */
  lemma {:induction false} ScanSaturated(list: seq<string>, n: string, c: Combo, order: seq<string>, m: nat, bySlug: map<string, Question>)
    requires m <= |order|
    requires m < |order| ==> |ScanAfter(list, n, c, order[..m], bySlug)| >= 4
    ensures ScanAfter(list, n, c, order, bySlug) == ScanAfter(list, n, c, order[..m], bySlug)
  {
    if m == |order| {
      assert order[..m] == order;
    } else {
      var init := order[..|order| - 1];
      assert init[..m] == order[..m];
      ScanSaturated(list, n, c, init, m, bySlug);
    }
  }

  // ---------------------------------------------------------------------
  // Properties of the combinations and of the key

  lemma {:induction false} PairsWithMembers(x: string, rest: seq<string>, p: (string, string))
    ensures p in PairsWith(x, rest) <==> p.0 == x && p.1 in rest
  {
    if rest != [] {
      PairsWithMembers(x, rest[1..], p);
      assert p.1 in rest <==> p.1 == rest[0] || p.1 in rest[1..];
    }
  }

  /** Every pair is the values at two positions i < j. */
  lemma {:induction false} PairsSound(t: seq<string>, p: (string, string))
    requires p in Pairs(t)
    ensures exists i, j :: 0 <= i < j < |t| && p == (t[i], t[j])
  {
    var tail := t[1..];
    PairsWithMembers(t[0], tail, p);
    if p in PairsWith(t[0], tail) {
      var j :| 0 <= j < |tail| && tail[j] == p.1;
      assert p == (t[0], t[j + 1]);
    } else {
      PairsSound(tail, p);
      var i, j :| 0 <= i < j < |tail| && p == (tail[i], tail[j]);
      assert p == (t[i + 1], t[j + 1]);
    }
  }

  /** The values at any two positions i < j form a pair. */
  lemma {:induction false} PairsComplete(t: seq<string>, i: nat, j: nat)
    requires i < j < |t|
    ensures (t[i], t[j]) in Pairs(t)
  {
    var tail := t[1..];
    assert Pairs(t) == PairsWith(t[0], tail) + Pairs(tail);
    if i == 0 {
      assert t[j] == tail[j - 1] && tail[j - 1] in tail;
      PairsWithMembers(t[0], tail, (t[i], t[j]));
    } else {
      assert t[i] == tail[i - 1] && t[j] == tail[j - 1];
      PairsComplete(tail, i - 1, j - 1);
    }
  }

  lemma {:induction false} TriplesWithMembers(x: string, ps: seq<(string, string)>, c: Combo)
    ensures c in TriplesWith(x, ps) <==> c.0 == x && (c.1, c.2) in ps
  {
    if ps != [] {
      TriplesWithMembers(x, ps[1..], c);
      assert (c.1, c.2) in ps <==> (c.1, c.2) == ps[0] || (c.1, c.2) in ps[1..];
    }
  }

  /** Every combination is the values at three positions i < j < k. */
  lemma {:induction false} CombosSound(t: seq<string>, c: Combo)
    requires c in Combos(t)
    ensures exists i, j, k :: 0 <= i < j < k < |t| && c == (t[i], t[j], t[k])
  {
    var tail := t[1..];
    TriplesWithMembers(t[0], Pairs(tail), c);
    if c in TriplesWith(t[0], Pairs(tail)) {
      PairsSound(tail, (c.1, c.2));
      var j, k :| 0 <= j < k < |tail| && (c.1, c.2) == (tail[j], tail[k]);
      assert c == (t[0], t[j + 1], t[k + 1]);
    } else {
      CombosSound(tail, c);
      var i, j, k :| 0 <= i < j < k < |tail| && c == (tail[i], tail[j], tail[k]);
      assert c == (t[i + 1], t[j + 1], t[k + 1]);
    }
  }

  /** The values at any three positions i < j < k form a combination, so
      every 3-subset of the tag list is visited. */
  lemma {:induction false} CombosComplete(t: seq<string>, i: nat, j: nat, k: nat)
    requires i < j < k < |t|
    ensures (t[i], t[j], t[k]) in Combos(t)
  {
    var tail := t[1..];
    if i == 0 {
      PairsComplete(tail, j - 1, k - 1);
      TriplesWithMembers(t[0], Pairs(tail), (t[i], t[j], t[k]));
    } else {
      CombosComplete(tail, i - 1, j - 1, k - 1);
    }
  }

  lemma {:induction false} LexTotal(a: string, b: string)
    ensures LexLe(a, b) || LexLe(b, a)
  {
    if a != [] && b != [] && a[0] == b[0] {
      LexTotal(a[1..], b[1..]);
    }
  }

  lemma {:induction false} LexAntisymmetric(a: string, b: string)
    requires LexLe(a, b) && LexLe(b, a)
    ensures a == b
  {
    if a != [] && b != [] {
      LexAntisymmetric(a[1..], b[1..]);
      assert a == [a[0]] + a[1..] && b == [b[0]] + b[1..];
    }
  }

  lemma {:induction false} LexTransitive(a: string, b: string, d: string)
    requires LexLe(a, b) && LexLe(b, d)
    ensures LexLe(a, d)
  {
    if a != [] && b != [] && d != [] && a[0] == b[0] && b[0] == d[0] {
      LexTransitive(a[1..], b[1..], d[1..]);
    }
  }

  predicate Sorted3(c: Combo)
  {
    LexLe(c.0, c.1) && LexLe(c.1, c.2)
  }

  function Bag(c: Combo): multiset<string>
  {
    multiset{c.0, c.1, c.2}
  }

  /** `sorted(combo)` is in order and holds the same three names. */
  lemma SortSorts(c: Combo)
    ensures Sorted3(Sort3(c))
    ensures Bag(Sort3(c)) == Bag(c)
  {
    var (a, b, d) := c;
    LexTotal(a, b);
    LexTotal(b, d);
    LexTotal(a, d);
    if LexLe(a, b) {
      if !LexLe(b, d) {
        assert multiset{a, d, b} == multiset{d, a, b} == multiset{a, b, d};
      }
    } else if LexLe(a, d) {
      assert multiset{b, a, d} == multiset{a, b, d};
    } else {
      assert multiset{b, d, a} == multiset{d, b, a} == multiset{a, b, d};
    }
  }

  /** In a sorted triple the first name is the least, the last the
      greatest. */
  lemma SortedBounds(x: Combo, e: string)
    requires Sorted3(x) && e in Bag(x)
    ensures LexLe(x.0, e) && LexLe(e, x.2)
  {
    LexTransitive(x.0, x.1, x.2);
    if e == x.1 {
    } else if e == x.0 {
      assert LexLe(x.0, x.0) by { LexTotal(x.0, x.0); }
    } else {
      assert LexLe(x.2, x.2) by { LexTotal(x.2, x.2); }
    }
  }

  /** Two sorted triples holding the same names are equal. */
  lemma SortedUnique(x: Combo, y: Combo)
    requires Sorted3(x) && Sorted3(y) && Bag(x) == Bag(y)
    ensures x == y
  {
    SortedBounds(x, y.0);
    SortedBounds(y, x.0);
    LexAntisymmetric(x.0, y.0);
    SortedBounds(x, y.2);
    SortedBounds(y, x.2);
    LexAntisymmetric(x.2, y.2);
    assert Bag(x) - multiset{x.0, x.2} == multiset{x.1};
    assert Bag(y) - multiset{y.0, y.2} == multiset{y.1};
    assert x.1 in multiset{y.1};
  }

  /** The key of a combination is its three names in sorted order joined
      with ", ", and it does not depend on the order of the names. */
  lemma KeyIsCanonical(c: Combo, d: Combo)
    requires Bag(c) == Bag(d)
    ensures Key(c) == Join(Sort3(c)) && Sorted3(Sort3(c)) && Bag(Sort3(c)) == Bag(c)
    ensures Key(c) == Key(d)
  {
    SortSorts(c);
    SortSorts(d);
    SortedUnique(Sort3(c), Sort3(d));
  }

  // ---------------------------------------------------------------------
  // Properties of one scan

  /** A slug the scan may append for nemesis slug `n` and combination `c`. */
  predicate Matches(n: string, c: Combo, q: string, bySlug: map<string, Question>)
  {
    q != n && q in bySlug && Covers(bySlug[q].topicTags, c)
  }

  /** The scan only appends, never past 4, and only matching slugs of the
      index. */
  lemma {:induction false} ScanAppends(list: seq<string>, n: string, c: Combo, order: seq<string>, bySlug: map<string, Question>)
    ensures list <= ScanAfter(list, n, c, order, bySlug)
    ensures |list| <= 4 ==> |ScanAfter(list, n, c, order, bySlug)| <= 4
    ensures forall k :: |list| <= k < |ScanAfter(list, n, c, order, bySlug)| ==>
              ScanAfter(list, n, c, order, bySlug)[k] in order && Matches(n, c, ScanAfter(list, n, c, order, bySlug)[k], bySlug)
  {
    if order != [] {
      var init := order[..|order| - 1];
      ScanAppends(list, n, c, init, bySlug);
      assert forall q :: q in init ==> q in order;
    }
  }

  /** A scan that ends below 4 appended every matching slug of the index. */
  lemma {:induction false} ScanComplete(list: seq<string>, n: string, c: Combo, order: seq<string>, bySlug: map<string, Question>, q: string)
    requires q in order && Matches(n, c, q, bySlug)
    ensures |ScanAfter(list, n, c, order, bySlug)| >= 4 || q in ScanAfter(list, n, c, order, bySlug)
  {
    var init := order[..|order| - 1];
    if q != order[|order| - 1] {
      assert q in init;
      ScanComplete(list, n, c, init, bySlug, q);
    }
  }

  // ---------------------------------------------------------------------
  // Properties of the whole result

  /** Every list of `m1` is a prefix of the same key's list in `m2`. */
  predicate Extends(m1: map<string, seq<string>>, m2: map<string, seq<string>>)
  {
    forall k :: k in m1 ==> k in m2 && m1[k] <= m2[k]
  }

  /** No list holds more than 4 slugs. */
  predicate Capped(m: map<string, seq<string>>)
  {
    forall k :: k in m ==> |m[k]| <= 4
  }

  /** The key of `c` exists, and unless its list is full it holds every
      slug that matches `n` and `c`. */
  predicate Served(m: map<string, seq<string>>, n: string, c: Combo, order: seq<string>, bySlug: map<string, Question>)
  {
    && Key(c) in m
    && forall q :: q in order && Matches(n, c, q, bySlug) ==> |m[Key(c)]| >= 4 || q in m[Key(c)]
  }

  lemma ExtendsTransitive(m1: map<string, seq<string>>, m2: map<string, seq<string>>, m3: map<string, seq<string>>)
    requires Extends(m1, m2) && Extends(m2, m3)
    ensures Extends(m1, m3)
  {
    forall k | k in m1
      ensures m1[k] <= m3[k]
    {
      assert m1[k] == m2[k][..|m1[k]|] && m2[k] == m3[k][..|m2[k]|];
      assert m1[k] == m3[k][..|m1[k]|];
    }
  }

  lemma ServedKept(m1: map<string, seq<string>>, m2: map<string, seq<string>>, n: string, c: Combo, order: seq<string>, bySlug: map<string, Question>)
    requires Served(m1, n, c, order, bySlug) && Extends(m1, m2)
    ensures Served(m2, n, c, order, bySlug)
  {
    var key := Key(c);
    forall q | q in order && Matches(n, c, q, bySlug) && q in m1[key]
      ensures q in m2[key]
    {
      var i :| 0 <= i < |m1[key]| && m1[key][i] == q;
      assert m2[key][i] == q;
    }
  }

  /** One combination step. */
  lemma ComboStepFacts(m: map<string, seq<string>>, n: string, c: Combo, order: seq<string>, bySlug: map<string, Question>)
    ensures Extends(m, ComboStep(m, n, c, order, bySlug))
    ensures Capped(m) ==> Capped(ComboStep(m, n, c, order, bySlug))
    ensures ComboStep(m, n, c, order, bySlug).Keys == m.Keys + {Key(c)}
    ensures Served(ComboStep(m, n, c, order, bySlug), n, c, order, bySlug)
    ensures forall k, x :: k in ComboStep(m, n, c, order, bySlug) && x in ComboStep(m, n, c, order, bySlug)[k] ==>
              (k in m && x in m[k]) || (k == Key(c) && x in order && Matches(n, c, x, bySlug))
  {
    var key := Key(c);
    var base := if key in m then m[key] else [];
    var after := ScanAfter(base, n, c, order, bySlug);
    var r := ComboStep(m, n, c, order, bySlug);
    ScanAppends(base, n, c, order, bySlug);
    forall q | q in order && Matches(n, c, q, bySlug)
      ensures |after| >= 4 || q in after
    {
      ScanComplete(base, n, c, order, bySlug, q);
    }
    forall x | x in after
      ensures (key in m && x in m[key]) || (x in order && Matches(n, c, x, bySlug))
    {
      var i :| 0 <= i < |after| && after[i] == x;
      if i < |base| {
        assert base[i] == x;
      }
    }
  }

  lemma {:induction false} CombosAfterFacts(m: map<string, seq<string>>, n: string, cs: seq<Combo>, order: seq<string>, bySlug: map<string, Question>)
    ensures Extends(m, CombosAfter(m, n, cs, order, bySlug))
    ensures Capped(m) ==> Capped(CombosAfter(m, n, cs, order, bySlug))
    ensures forall k :: k in CombosAfter(m, n, cs, order, bySlug) <==> k in m || exists c :: c in cs && Key(c) == k
  {
    if cs != [] {
      var init := cs[..|cs| - 1];
      var before := CombosAfter(m, n, init, order, bySlug);
      CombosAfterFacts(m, n, init, order, bySlug);
      ComboStepFacts(before, n, cs[|cs| - 1], order, bySlug);
      ExtendsTransitive(m, before, CombosAfter(m, n, cs, order, bySlug));
      forall k | exists c :: c in cs && Key(c) == k
        ensures k in CombosAfter(m, n, cs, order, bySlug)
      {
        var c :| c in cs && Key(c) == k;
        if c != cs[|cs| - 1] {
          assert c in init;
        }
      }
      assert forall c :: c in init ==> c in cs;
    }
  }

  lemma {:induction false} CombosAfterServed(m: map<string, seq<string>>, n: string, cs: seq<Combo>, order: seq<string>, bySlug: map<string, Question>, c: Combo)
    requires c in cs
    ensures Served(CombosAfter(m, n, cs, order, bySlug), n, c, order, bySlug)
  {
    var init := cs[..|cs| - 1];
    var before := CombosAfter(m, n, init, order, bySlug);
    ComboStepFacts(before, n, cs[|cs| - 1], order, bySlug);
    if c != cs[|cs| - 1] {
      assert c in init;
      CombosAfterServed(m, n, init, order, bySlug, c);
      ServedKept(before, CombosAfter(m, n, cs, order, bySlug), n, c, order, bySlug);
    }
  }

  lemma {:induction false} CombosAfterJustified(m: map<string, seq<string>>, n: string, cs: seq<Combo>, order: seq<string>, bySlug: map<string, Question>)
    ensures forall k, x :: k in CombosAfter(m, n, cs, order, bySlug) && x in CombosAfter(m, n, cs, order, bySlug)[k] ==>
              (k in m && x in m[k]) || (x in order && exists c :: c in cs && Key(c) == k && Matches(n, c, x, bySlug))
  {
    if cs != [] {
      var init := cs[..|cs| - 1];
      var before := CombosAfter(m, n, init, order, bySlug);
      var after := CombosAfter(m, n, cs, order, bySlug);
      CombosAfterJustified(m, n, init, order, bySlug);
      ComboStepFacts(before, n, cs[|cs| - 1], order, bySlug);
      forall k, x | k in after && x in after[k]
        ensures (k in m && x in m[k]) || (x in order && exists c :: c in cs && Key(c) == k && Matches(n, c, x, bySlug))
      {
        if k in before && x in before[k] {
          assert (k in m && x in m[k]) || (x in order && exists c :: c in init && Key(c) == k && Matches(n, c, x, bySlug));
          if !(k in m && x in m[k]) {
            var c :| c in init && Key(c) == k && Matches(n, c, x, bySlug);
            assert c in cs;
          }
        } else {
          assert cs[|cs| - 1] in cs;
        }
      }
    }
  }

  /** `c` is a combination of the tags of nemesis slug `n`, found in the
      index with at least 3 tags. */
  predicate Source(n: string, c: Combo, nemesis: seq<string>, bySlug: map<string, Question>)
  {
    n in nemesis && n in bySlug && |bySlug[n].topicTags| >= 3 && c in Combos(bySlug[n].topicTags)
  }

  lemma {:induction false} RelatedAfterFacts(m: map<string, seq<string>>, nemesis: seq<string>, order: seq<string>, bySlug: map<string, Question>)
    ensures Extends(m, RelatedAfter(m, nemesis, order, bySlug))
    ensures Capped(m) ==> Capped(RelatedAfter(m, nemesis, order, bySlug))
    ensures forall k :: k in RelatedAfter(m, nemesis, order, bySlug) <==>
              k in m || exists n, c :: Source(n, c, nemesis, bySlug) && Key(c) == k
  {
    if nemesis != [] {
      var init := nemesis[..|nemesis| - 1];
      var n := nemesis[|nemesis| - 1];
      var before := RelatedAfter(m, init, order, bySlug);
      var after := RelatedAfter(m, nemesis, order, bySlug);
      RelatedAfterFacts(m, init, order, bySlug);
      assert forall x :: x in init ==> x in nemesis;
      if n in bySlug && |bySlug[n].topicTags| >= 3 {
        CombosAfterFacts(before, n, Combos(bySlug[n].topicTags), order, bySlug);
        ExtendsTransitive(m, before, after);
      }
      forall k | k in after
        ensures k in m || exists n', c :: Source(n', c, nemesis, bySlug) && Key(c) == k
      {
        if k !in before {
          var c :| c in Combos(bySlug[n].topicTags) && Key(c) == k;
          assert Source(n, c, nemesis, bySlug);
        } else if k !in m {
          var n', c :| Source(n', c, init, bySlug) && Key(c) == k;
          assert Source(n', c, nemesis, bySlug);
        }
      }
      forall k | exists n', c :: Source(n', c, nemesis, bySlug) && Key(c) == k
        ensures k in after
      {
        var n', c :| Source(n', c, nemesis, bySlug) && Key(c) == k;
        if n' != n {
          assert Source(n', c, init, bySlug);
        }
      }
    }
  }

  lemma {:induction false} RelatedAfterServed(m: map<string, seq<string>>, nemesis: seq<string>, order: seq<string>, bySlug: map<string, Question>,
                                              n: string, c: Combo)
    requires Source(n, c, nemesis, bySlug)
    ensures Served(RelatedAfter(m, nemesis, order, bySlug), n, c, order, bySlug)
  {
    var init := nemesis[..|nemesis| - 1];
    var last := nemesis[|nemesis| - 1];
    var before := RelatedAfter(m, init, order, bySlug);
    var after := RelatedAfter(m, nemesis, order, bySlug);
    if n == last {
      CombosAfterServed(before, n, Combos(bySlug[n].topicTags), order, bySlug, c);
    } else {
      assert n in init;
      RelatedAfterServed(m, init, order, bySlug, n, c);
      RelatedAfterFacts(before, [last], order, bySlug);
      assert [last] == nemesis[|init|..] && init + [last] == nemesis;
      RelatedAfterSplit(m, init, last, order, bySlug);
      ServedKept(before, after, n, c, order, bySlug);
    }
  }

  /** Processing one more nemesis slug is one more step of the fold. */
  lemma RelatedAfterSplit(m: map<string, seq<string>>, init: seq<string>, last: string, order: seq<string>, bySlug: map<string, Question>)
    ensures RelatedAfter(m, init + [last], order, bySlug) == RelatedAfter(RelatedAfter(m, init, order, bySlug), [last], order, bySlug)
  {
    assert (init + [last])[..|init|] == init;
    assert [last][..0] == [];
  }

  /** `x` is listed under `k` for a reason: some nemesis slug `n` and
      combination `c` of its tags with key `k` match `x`. */
  ghost predicate Justified(x: string, k: string, nemesis: seq<string>, order: seq<string>, bySlug: map<string, Question>)
  {
    x in order && exists n, c :: Source(n, c, nemesis, bySlug) && Key(c) == k && Matches(n, c, x, bySlug)
  }

  lemma JustifiedGrows(x: string, k: string, init: seq<string>, nemesis: seq<string>, order: seq<string>, bySlug: map<string, Question>)
    requires Justified(x, k, init, order, bySlug)
    requires forall n :: n in init ==> n in nemesis
    ensures Justified(x, k, nemesis, order, bySlug)
  {
    var n, c :| Source(n, c, init, bySlug) && Key(c) == k && Matches(n, c, x, bySlug);
    assert Source(n, c, nemesis, bySlug);
  }

  lemma {:induction false} RelatedAfterJustified(m: map<string, seq<string>>, nemesis: seq<string>, order: seq<string>, bySlug: map<string, Question>)
    ensures forall k, x :: k in RelatedAfter(m, nemesis, order, bySlug) && x in RelatedAfter(m, nemesis, order, bySlug)[k] ==>
              (k in m && x in m[k]) || Justified(x, k, nemesis, order, bySlug)
  {
    if nemesis != [] {
      var init := nemesis[..|nemesis| - 1];
      var n := nemesis[|nemesis| - 1];
      var before := RelatedAfter(m, init, order, bySlug);
      var after := RelatedAfter(m, nemesis, order, bySlug);
      RelatedAfterJustified(m, init, order, bySlug);
      if n in bySlug && |bySlug[n].topicTags| >= 3 {
        CombosAfterJustified(before, n, Combos(bySlug[n].topicTags), order, bySlug);
      }
      forall k, x | k in after && x in after[k]
        ensures (k in m && x in m[k]) || Justified(x, k, nemesis, order, bySlug)
      {
        if k in before && x in before[k] {
          if !(k in m && x in m[k]) {
            JustifiedGrows(x, k, init, nemesis, order, bySlug);
          }
        } else {
          assert x in order && exists c :: c in Combos(bySlug[n].topicTags) && Key(c) == k && Matches(n, c, x, bySlug);
          var c :| c in Combos(bySlug[n].topicTags) && Key(c) == k && Matches(n, c, x, bySlug);
          assert Source(n, c, nemesis, bySlug);
        }
      }
    }
  }

  // ---------------------------------------------------------------------
  // Properties of find_related_problems

  /** The keys are exactly the keys of the combinations of the tags of the
      nemesis slugs found in the index with at least 3 tags; a key exists
      even when no question matches it. */
  lemma RelatedKeys(nemesis: seq<string>, order: seq<string>, bySlug: map<string, Question>, k: string)
    ensures k in RelatedAfter(map[], nemesis, order, bySlug) <==>
              exists n, c :: Source(n, c, nemesis, bySlug) && Key(c) == k
  {
    RelatedAfterFacts(map[], nemesis, order, bySlug);
  }

  /** No key lists more than 4 slugs, and every slug listed is a slug of the
      index other than the nemesis slug it was found for, whose tags cover a
      combination with that key. */
  lemma RelatedSound(nemesis: seq<string>, order: seq<string>, bySlug: map<string, Question>)
    ensures forall k :: k in RelatedAfter(map[], nemesis, order, bySlug) ==> |RelatedAfter(map[], nemesis, order, bySlug)[k]| <= 4
    ensures forall k, x :: k in RelatedAfter(map[], nemesis, order, bySlug) && x in RelatedAfter(map[], nemesis, order, bySlug)[k] ==>
              Justified(x, k, nemesis, order, bySlug)
  {
    RelatedAfterFacts(map[], nemesis, order, bySlug);
    RelatedAfterJustified(map[], nemesis, order, bySlug);
  }

  /** A key whose list is not full lists every slug of the index that
      matches any nemesis slug and combination with that key. */
  lemma RelatedComplete(nemesis: seq<string>, order: seq<string>, bySlug: map<string, Question>, n: string, c: Combo, q: string)
    requires Source(n, c, nemesis, bySlug)
    requires q in order && Matches(n, c, q, bySlug)
    ensures Key(c) in RelatedAfter(map[], nemesis, order, bySlug)
    ensures |RelatedAfter(map[], nemesis, order, bySlug)[Key(c)]| == 4 || q in RelatedAfter(map[], nemesis, order, bySlug)[Key(c)]
  {
    RelatedAfterFacts(map[], nemesis, order, bySlug);
    RelatedAfterServed(map[], nemesis, order, bySlug, n, c);
  }
}
