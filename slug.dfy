/**
 * Django's `slugify` without `allow_unicode`, as `UserIntermediary.clean` uses it:
 * lower-case, drop everything but word characters, whitespace and hyphens,
 * turn each run of hyphens and whitespace into one hyphen, and strip hyphens
 * and underscores from both ends.
 */
module Slug {
  import opened Text

  /** A character `\w` matches once the text is ASCII and lower-cased. */
  predicate IsWordChar(c: char) {
    'a' <= c <= 'z' || '0' <= c <= '9' || c == '_'
  }

  /** What `[-\s]+` matches one character of. */
  predicate IsRunChar(c: char) {
    c == '-' || IsRegexSpace(c)
  }

  predicate IsSlugChar(c: char) {
    IsWordChar(c) || c == '-'
  }

  /** Slug characters only, and no two hyphens in a row. */
  predicate SlugBody(s: string) {
    (forall i :: 0 <= i < |s| ==> IsSlugChar(s[i]))
    && (forall i :: 0 <= i < |s| - 1 ==> !(s[i] == '-' && s[i + 1] == '-'))
  }

  /** A slug: a slug body with no hyphen or underscore at either end. */
  predicate IsSlug(s: string) {
    SlugBody(s)
    && (s == [] || (s[0] != '-' && s[0] != '_' && s[|s| - 1] != '-' && s[|s| - 1] != '_'))
  }

  /** `re.sub(r'[^\w\s-]', '', value.lower())`; characters outside ASCII never match `\w` here. */
  function KeepWords(s: string): (r: string)
    ensures forall i :: 0 <= i < |r| ==> IsWordChar(r[i]) || IsRunChar(r[i])
    ensures (forall i :: 0 <= i < |s| ==> IsSlugChar(s[i])) ==> r == s
  {
    if s == [] then []
    else
      var c := LowerChar(s[0]);
      (if IsWordChar(c) || IsRunChar(c) then [c] else []) + KeepWords(s[1..])
  }

  /** `re.sub(r'[-\s]+', '-', value)`; `inRun` says the previous character was part of a run. */
  function Collapse(s: string, inRun: bool): (r: string)
    requires forall i :: 0 <= i < |s| ==> IsWordChar(s[i]) || IsRunChar(s[i])
    ensures forall i :: 0 <= i < |r| ==> IsSlugChar(r[i])
    ensures forall i :: 0 <= i < |r| - 1 ==> !(r[i] == '-' && r[i + 1] == '-')
    ensures inRun ==> r == [] || r[0] != '-'
    ensures r == [] <==> s == [] || (inRun && forall i :: 0 <= i < |s| ==> IsRunChar(s[i]))
  {
    if s == [] then []
    else if IsRunChar(s[0]) then (if inRun then [] else "-") + Collapse(s[1..], true)
    else [s[0]] + Collapse(s[1..], false)
  }

  /** `str.lstrip('-_')`. */
  function TrimStart(s: string): (r: string)
    ensures |r| <= |s| && r == s[|s| - |r|..]
    ensures r == [] || (r[0] != '-' && r[0] != '_')
  {
    if s != [] && (s[0] == '-' || s[0] == '_') then TrimStart(s[1..]) else s
  }

  /** `str.rstrip('-_')`. */
  function TrimEnd(s: string): (r: string)
    ensures |r| <= |s| && r == s[..|r|]
    ensures r == [] || (r[|r| - 1] != '-' && r[|r| - 1] != '_')
  {
    if s != [] && (s[|s| - 1] == '-' || s[|s| - 1] == '_') then TrimEnd(s[..|s| - 1]) else s
  }

  /** Slug characters only, with no hyphen or underscore at either end. */
  function Slugify(s: string): (r: string)
    ensures forall i :: 0 <= i < |r| ==> IsSlugChar(r[i])
    ensures r == [] || (r[0] != '-' && r[0] != '_' && r[|r| - 1] != '-' && r[|r| - 1] != '_')
  {
    TrimEnd(TrimStart(Collapse(KeepWords(s), false)))
  }

  lemma SlugBodySlice(s: string, lo: nat, hi: nat)
    requires lo <= hi <= |s| && SlugBody(s)
    ensures SlugBody(s[lo..hi])
  {
    var t := s[lo..hi];
    assert forall i :: 0 <= i < |t| ==> t[i] == s[lo + i];
  }

  /** Trimming the ends keeps a contiguous piece, so a slug body stays one. */
  lemma TrimKeepsBody(s: string)
    requires SlugBody(s)
    ensures IsSlug(TrimEnd(TrimStart(s)))
  {
    var t := TrimStart(s);
    SlugBodySlice(s, |s| - |t|, |s|);
    var r := TrimEnd(t);
    SlugBodySlice(t, 0, |r|);
  }

  /** Whatever the input, `slugify` produces a slug. */
  lemma SlugifyIsSlug(s: string)
    ensures IsSlug(Slugify(s))
  {
    TrimKeepsBody(Collapse(KeepWords(s), false));
  }

  /** On text that is already a slug, collapsing changes nothing. */
  lemma {:induction false} CollapseFixesSlugText(s: string, inRun: bool)
    requires SlugBody(s)
    requires inRun ==> s == [] || s[0] != '-'
    ensures forall i :: 0 <= i < |s| ==> IsWordChar(s[i]) || IsRunChar(s[i])
    ensures Collapse(s, inRun) == s
  {
    if s != [] {
      assert IsSlugChar(s[0]) && !IsRegexSpace(s[0]);
      if s[0] == '-' {
        assert |s| > 1 ==> s[1] != '-';
        CollapseFixesSlugText(s[1..], true);
      } else {
        CollapseFixesSlugText(s[1..], false);
      }
    }
  }

  /** A slug is its own slug. */
  lemma SlugifyFixesSlugs(s: string)
    requires IsSlug(s)
    ensures Slugify(s) == s
  {
    CollapseFixesSlugText(s, false);
  }

  /** `slugify` is idempotent. */
  lemma SlugifyIdempotent(s: string)
    ensures Slugify(Slugify(s)) == Slugify(s)
  {
    SlugifyIsSlug(s);
    SlugifyFixesSlugs(Slugify(s));
  }
}
