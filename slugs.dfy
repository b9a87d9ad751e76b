/** The slug normaliser `_create_slug` (app/analyzer.py), whose formula is
    repeated inline by the question index (app/data_manager.py): lowercase
    the title, replace every maximal run of non-word characters by one '-',
    then strip '-' from both ends. The slug is the join key between the
    titles of a user's submissions and the questions of the corpus.

    Python's Unicode-aware `\W` and `str.lower` are modelled on ASCII: the
    word characters are letters, digits and '_', and only 'A'..'Z' change
    under lowercasing. */
module Slugs {

  predicate IsWordChar(c: char)
  {
    'a' <= c <= 'z' || 'A' <= c <= 'Z' || '0' <= c <= '9' || c == '_'
  }

  predicate IsUpper(c: char)
  {
    'A' <= c <= 'Z'
  }

  function Lower(c: char): (r: char)
    ensures !IsUpper(r)
    ensures IsWordChar(r) == IsWordChar(c)
    ensures !IsUpper(c) ==> r == c
  {
    if IsUpper(c) then (c as int + 32) as char else c
  }

  /** `str.lower()` */
  function LowerAll(s: string): string
  {
    if s == [] then [] else [Lower(s[0])] + LowerAll(s[1..])
  }

  /** Drops the rest of a run of non-word characters. */
  function SkipNonWord(s: string): (r: string)
    ensures |r| <= |s|
  {
    if s != [] && !IsWordChar(s[0]) then SkipNonWord(s[1..]) else s
  }

  /** `re.sub(r'\W+', '-', s)`: each maximal run of non-word characters
      becomes a single '-'. */
  function Collapse(s: string): string
    decreases |s|
  {
    if s == [] then []
    else if IsWordChar(s[0]) then [s[0]] + Collapse(s[1..])
    else ['-'] + Collapse(SkipNonWord(s[1..]))
  }

  /** `lstrip('-')` */
  function TrimLeading(s: string): string
  {
    if s != [] && s[0] == '-' then TrimLeading(s[1..]) else s
  }

  /** `rstrip('-')` */
  function TrimTrailing(s: string): string
  {
    if s != [] && s[|s| - 1] == '-' then TrimTrailing(s[..|s| - 1]) else s
  }

  /** `_create_slug(title)` */
  function Slug(title: string): string
  {
    TrimTrailing(TrimLeading(Collapse(LowerAll(title))))
  }

  /** The shape of every slug: lowercase word characters separated by
      single '-', with no '-' at either end. */
  predicate IsSlug(s: string)
  {
    && (forall i :: 0 <= i < |s| ==> s[i] == '-' || (IsWordChar(s[i]) && !IsUpper(s[i])))
    && (forall i :: 0 <= i < |s| - 1 ==> !(s[i] == '-' && s[i + 1] == '-'))
    && (s != [] ==> s[0] != '-' && s[|s| - 1] != '-')
  }

  // ---------------------------------------------------------------------
  // Properties of the steps

  /** SkipNonWord leaves a suffix that is empty or starts with a word
      character. */
  lemma {:induction false} SkipNonWordSuffix(s: string)
    ensures |SkipNonWord(s)| <= |s| && SkipNonWord(s) == s[|s| - |SkipNonWord(s)|..]
    ensures SkipNonWord(s) == [] || IsWordChar(SkipNonWord(s)[0])
  {
    if s != [] && !IsWordChar(s[0]) {
      SkipNonWordSuffix(s[1..]);
    }
  }

  /** Lowercasing keeps the length and maps each character. */
  lemma {:induction false} LowerAllAt(s: string)
    ensures |LowerAll(s)| == |s|
    ensures forall i :: 0 <= i < |s| ==> LowerAll(s)[i] == Lower(s[i])
  {
    if s != [] {
      LowerAllAt(s[1..]);
    }
  }

  /** Every character Collapse produces is '-' or a word character, no two
      '-' are adjacent, and a leading word character is kept. */
  lemma {:induction false} CollapseShape(s: string)
    ensures forall i :: 0 <= i < |Collapse(s)| ==> Collapse(s)[i] == '-' || IsWordChar(Collapse(s)[i])
    ensures forall i :: 0 <= i < |Collapse(s)| - 1 ==> !(Collapse(s)[i] == '-' && Collapse(s)[i + 1] == '-')
    ensures s != [] && IsWordChar(s[0]) ==> Collapse(s) != [] && Collapse(s)[0] == s[0]
    decreases |s|
  {
    if s != [] {
      if IsWordChar(s[0]) {
        CollapseShape(s[1..]);
      } else {
        SkipNonWordSuffix(s[1..]);
        CollapseShape(SkipNonWord(s[1..]));
      }
    }
  }

  /** Collapse introduces no upper-case letter. */
  lemma {:induction false} CollapseKeepsLowercase(s: string)
    requires forall i :: 0 <= i < |s| ==> !IsUpper(s[i])
    ensures forall i :: 0 <= i < |Collapse(s)| ==> !IsUpper(Collapse(s)[i])
    decreases |s|
  {
    if s != [] {
      if IsWordChar(s[0]) {
        CollapseKeepsLowercase(s[1..]);
      } else {
        var tail := SkipNonWord(s[1..]);
        SkipNonWordSuffix(s[1..]);
        assert forall i :: 0 <= i < |tail| ==> tail[i] == s[|s| - |tail| + i];
        CollapseKeepsLowercase(tail);
      }
    }
  }

  /** lstrip('-') leaves a suffix that does not start with '-'. */
  lemma {:induction false} TrimLeadingShape(s: string)
    ensures |TrimLeading(s)| <= |s| && TrimLeading(s) == s[|s| - |TrimLeading(s)|..]
    ensures TrimLeading(s) == [] || TrimLeading(s)[0] != '-'
  {
    if s != [] && s[0] == '-' {
      TrimLeadingShape(s[1..]);
    }
  }

  /** rstrip('-') leaves a prefix that does not end with '-'. */
  lemma {:induction false} TrimTrailingShape(s: string)
    ensures |TrimTrailing(s)| <= |s| && TrimTrailing(s) == s[..|TrimTrailing(s)|]
    ensures TrimTrailing(s) == [] || TrimTrailing(s)[|TrimTrailing(s)| - 1] != '-'
  {
    if s != [] && s[|s| - 1] == '-' {
      TrimTrailingShape(s[..|s| - 1]);
    }
  }

  /** `_create_slug` output is lowercase, has no whitespace (every
      character is a word character or '-'), no "--", and no '-' at either
      end. */
  lemma SlugShape(title: string)
    ensures IsSlug(Slug(title))
  {
    var lowered := LowerAll(title);
    var collapsed := Collapse(lowered);
    var stripped := TrimLeading(collapsed);
    var r := TrimTrailing(stripped);
    LowerAllAt(title);
    CollapseShape(lowered);
    CollapseKeepsLowercase(lowered);
    TrimLeadingShape(collapsed);
    TrimTrailingShape(stripped);
    assert forall i :: 0 <= i < |r| ==> r[i] == collapsed[|collapsed| - |stripped| + i];
  }

  /** A string already in slug shape is unchanged by Collapse. */
  lemma {:induction false} CollapseFixesSlugShape(s: string)
    requires forall i :: 0 <= i < |s| ==> s[i] == '-' || IsWordChar(s[i])
    requires forall i :: 0 <= i < |s| - 1 ==> !(s[i] == '-' && s[i + 1] == '-')
    ensures Collapse(s) == s
  {
    if s != [] {
      assert forall i :: 0 <= i < |s[1..]| ==> s[1..][i] == s[i + 1];
      CollapseFixesSlugShape(s[1..]);
      if !IsWordChar(s[0]) {
        assert s[1..] == [] || IsWordChar(s[1]);
        assert SkipNonWord(s[1..]) == s[1..];
      }
    }
  }

  /** Every string in slug shape is its own slug. */
  lemma SlugOfSlug(s: string)
    requires IsSlug(s)
    ensures Slug(s) == s
  {
    LowerAllAt(s);
    assert LowerAll(s) == s;
    CollapseFixesSlugShape(s);
  }

  /** `_create_slug` is idempotent. */
  lemma SlugIdempotent(title: string)
    ensures Slug(Slug(title)) == Slug(title)
  {
    SlugShape(title);
    SlugOfSlug(Slug(title));
  }
}
