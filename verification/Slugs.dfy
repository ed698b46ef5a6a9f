/** pingback/services/status_slug.py on ASCII text: the slug grammar, `slugify`, and the allocation of
    unique slugs. */
module Slugs {
  import opened Tables

  const MIN_LEN := 3
  const MAX_LEN := 32

  predicate Alnum(c: char) {
    'a' <= c <= 'z' || '0' <= c <= '9'
  }

  // ---------------------------------------------------------------- the grammar

  /** One or more alphanumerics, then any number of hyphen-separated groups of the same: the pattern of
      `_SLUG_RE` without its end anchor, matched against the whole text. `opening` tells that a
      group has yet to begin. */
  predicate Groups(s: string, opening: bool)
    decreases |s|
  {
    if s == "" then !opening
    else if Alnum(s[0]) then Groups(s[1..], false)
    else s[0] == '-' && !opening && Groups(s[1..], true)
  }

  predicate InGrammar(s: string) {
    Groups(s, true)
  }

  /** `_SLUG_RE.match`: the `$` of Python also matches before one final newline. */
  predicate Matches(s: string) {
    InGrammar(s) || (s != "" && s[|s| - 1] == '\n' && InGrammar(s[..|s| - 1]))
  }

  predicate SlugChars(s: string) {
    forall i :: 0 <= i < |s| ==> Alnum(s[i]) || s[i] == '-'
  }

  predicate NoDoubleHyphen(s: string) {
    forall i :: 0 <= i < |s| - 1 ==> !(s[i] == '-' && s[i + 1] == '-')
  }

  /** Lower-case alphanumerics and single hyphens, none at either end. */
  predicate WellFormed(s: string) {
    && s != "" && SlugChars(s) && NoDoubleHyphen(s)
    && s[0] != '-' && s[|s| - 1] != '-'
  }

  lemma {:induction false} GroupsAre(s: string, opening: bool)
    ensures Groups(s, opening) <==>
      && SlugChars(s) && NoDoubleHyphen(s)
      && (s == "" ==> !opening)
      && (s != "" ==> s[|s| - 1] != '-' && (opening ==> s[0] != '-'))
    decreases |s|
  {
    if s == "" {
    } else {
      var t := s[1..];
      assert s == [s[0]] + t;
      GroupsAre(t, !Alnum(s[0]));
      if SlugChars(s) && NoDoubleHyphen(s) {
        assert forall i :: 0 <= i < |t| ==> t[i] == s[i + 1];
        assert SlugChars(t) && NoDoubleHyphen(t);
        assert t != "" && s[0] == '-' ==> s[1] != '-';
      } else if SlugChars(t) && NoDoubleHyphen(t) && (Alnum(s[0]) || s[0] == '-') {
        assert SlugChars(s);
        assert forall i :: 0 < i < |s| - 1 ==> s[i] == t[i - 1] && s[i + 1] == t[i];
      }
    }
  }

  /** The language of the pattern is exactly the well-formed strings; `match` accepts one more family,
      a well-formed string followed by a newline. */
  lemma GrammarIsWellFormed(s: string)
    ensures InGrammar(s) <==> WellFormed(s)
    ensures Matches(s) && !InGrammar(s) <==> s != "" && s[|s| - 1] == '\n' && WellFormed(s[..|s| - 1])
  {
    GroupsAre(s, true);
    if s != "" && s[|s| - 1] == '\n' {
      GroupsAre(s[..|s| - 1], true);
    }
  }

  // ---------------------------------------------------------------- slugify

  function Lower(c: char): char {
    if 'A' <= c <= 'Z' then (c as int + 32) as char else c
  }

  function LowerAll(s: string): string {
    seq(|s|, i requires 0 <= i < |s| => Lower(s[i]))
  }

  /** Every run of characters outside [a-z0-9] becomes one hyphen. `inRun` tells that the character
      before was one of them. */
  function Squash(s: string, inRun: bool): string {
    if s == "" then ""
    else if Alnum(s[0]) then [s[0]] + Squash(s[1..], false)
    else (if inRun then "" else "-") + Squash(s[1..], true)
  }

  function StripLeft(s: string): string {
    if s != "" && s[0] == '-' then StripLeft(s[1..]) else s
  }

  function StripRight(s: string): string {
    if s != "" && s[|s| - 1] == '-' then StripRight(s[..|s| - 1]) else s
  }

  function Strip(s: string): string {
    StripRight(StripLeft(s))
  }

  /** A Python slice `s[:n]`. */
  function Take(s: string, n: nat): string {
    if |s| <= n then s else s[..n]
  }

  function Cleaned(text: string): string {
    Strip(Squash(LowerAll(text), false))
  }

  function Slugify(text: string): string {
    Take(Cleaned(text), MAX_LEN)
  }

  /** What `slugify` never leaves: a foreign character, a doubled hyphen, a hyphen in front. */
  predicate Hyphenated(s: string) {
    SlugChars(s) && NoDoubleHyphen(s) && (s != "" ==> s[0] != '-')
  }

  lemma {:induction false} SquashShape(s: string, inRun: bool)
    ensures SlugChars(Squash(s, inRun)) && NoDoubleHyphen(Squash(s, inRun))
    ensures inRun && Squash(s, inRun) != "" ==> Squash(s, inRun)[0] != '-'
  {
    if s == "" {
    } else {
      SquashShape(s[1..], !Alnum(s[0]));
    }
  }

  lemma {:induction false} StripLeftShape(s: string)
    ensures exists i :: 0 <= i <= |s| && StripLeft(s) == s[i..]
    ensures StripLeft(s) != "" ==> StripLeft(s)[0] != '-'
  {
    if s == "" || s[0] != '-' {
      assert StripLeft(s) == s[0..];
    } else {
      StripLeftShape(s[1..]);
      var i :| 0 <= i <= |s[1..]| && StripLeft(s[1..]) == s[1..][i..];
      assert StripLeft(s) == s[i + 1..];
    }
  }

  lemma {:induction false} StripRightShape(s: string)
    ensures StripRight(s) <= s
    ensures StripRight(s) != "" ==> StripRight(s)[|StripRight(s)| - 1] != '-'
    ensures s != "" && s[0] != '-' ==> StripRight(s) != ""
  {
    if s == "" || s[|s| - 1] != '-' {
    } else {
      StripRightShape(s[..|s| - 1]);
    }
  }

  lemma SlugCharsPart(s: string, i: nat, j: nat)
    requires i <= j <= |s| && SlugChars(s) && NoDoubleHyphen(s)
    ensures SlugChars(s[i..j]) && NoDoubleHyphen(s[i..j])
  {
    var t := s[i..j];
    assert forall k :: 0 <= k < |t| ==> t[k] == s[i + k];
  }

  lemma StripLeftPart(s: string)
    requires SlugChars(s) && NoDoubleHyphen(s)
    ensures Hyphenated(StripLeft(s))
  {
    StripLeftShape(s);
    var i :| 0 <= i <= |s| && StripLeft(s) == s[i..];
    SlugCharsPart(s, i, |s|);
    assert s[i..|s|] == StripLeft(s);
  }

  lemma StripRightPart(s: string)
    requires SlugChars(s) && NoDoubleHyphen(s)
    ensures SlugChars(StripRight(s)) && NoDoubleHyphen(StripRight(s))
  {
    StripRightShape(s);
    SlugCharsPart(s, 0, |StripRight(s)|);
    assert s[0..|StripRight(s)|] == StripRight(s);
  }

  lemma FrontOfPrefix(front: string, s: string)
    requires front <= s
    ensures front != "" ==> front[0] == s[0]
  {
  }

  lemma StripShape(s: string)
    requires SlugChars(s) && NoDoubleHyphen(s)
    ensures Strip(s) == "" || WellFormed(Strip(s))
  {
    StripLeftPart(s);
    var t := StripLeft(s);
    StripRightShape(t);
    StripRightPart(t);
    FrontOfPrefix(StripRight(t), t);
  }

  lemma CleanedIsWellFormed(text: string)
    ensures Cleaned(text) == "" || WellFormed(Cleaned(text))
  {
    SquashShape(LowerAll(text), false);
    StripShape(Squash(LowerAll(text), false));
  }

  lemma TakeShape(s: string, n: nat)
    requires Hyphenated(s)
    ensures Hyphenated(Take(s, n))
  {
    SlugCharsPart(s, 0, |Take(s, n)|);
    assert s[0..|Take(s, n)|] == Take(s, n);
  }

  lemma SlugifyShape(text: string)
    ensures Hyphenated(Slugify(text)) && |Slugify(text)| <= MAX_LEN
    ensures |Slugify(text)| < MAX_LEN && Slugify(text) != "" ==> Slugify(text)[|Slugify(text)| - 1] != '-'
  {
    CleanedIsWellFormed(text);
    TakeShape(Cleaned(text), MAX_LEN);
  }

  lemma {:induction false} SquashKeeps(s: string)
    requires SlugChars(s) && NoDoubleHyphen(s)
    ensures Squash(s, false) == s
    ensures s != "" && s[0] != '-' ==> Squash(s, true) == s
    decreases |s|
  {
    if s == "" {
    } else {
      var t := s[1..];
      SlugCharsPart(s, 1, |s|);
      assert s[1..|s|] == t;
      SquashKeeps(t);
      assert s == [s[0]] + t;
      if s[0] == '-' && t != "" {
        assert t[0] == s[1] != '-';
      } else if s[0] == '-' {
        assert Squash(t, true) == "";
      }
    }
  }

  lemma WellFormedIsFixed(s: string)
    requires WellFormed(s)
    ensures Cleaned(s) == s
  {
    assert LowerAll(s) == s;
    SquashKeeps(s);
  }

  /** `slugify` gives back every valid slug unchanged. */
  lemma SlugifyIsIdentityOnSlugs(s: string)
    requires WellFormed(s) && |s| <= MAX_LEN
    ensures Slugify(s) == s
  {
    WellFormedIsFixed(s);
  }

  /** The one way `slugify` leaves the grammar is a hyphen at position 31 of a longer text; exactly then
      a second pass changes its result. */
  lemma SlugifyIsSlugIff(text: string)
    ensures (Slugify(text) == "" || InGrammar(Slugify(text))) <==>
            (|Cleaned(text)| > MAX_LEN ==> Cleaned(text)[MAX_LEN - 1] != '-')
    ensures Slugify(Slugify(text)) == Slugify(text) <==>
            (|Cleaned(text)| > MAX_LEN ==> Cleaned(text)[MAX_LEN - 1] != '-')
  {
    var slug := Slugify(text);
    CleanedIsWellFormed(text);
    SlugifyShape(text);
    GrammarIsWellFormed(slug);
    CleanedIsWellFormed(slug);
    if slug == "" {
      assert LowerAll(slug) == "";
    } else if WellFormed(slug) {
      WellFormedIsFixed(slug);
    } else {
      assert slug[|slug| - 1] == '-';
      if Slugify(slug) == slug {
        assert |Cleaned(slug)| > MAX_LEN ==> Cleaned(slug)[..MAX_LEN] == slug;
        SquashKeeps(slug);
        assert LowerAll(slug) == slug;
        StripRightShape(slug);
        assert false;
      }
    }
  }

  // ---------------------------------------------------------------- slugify keeps the words

  /** The maximal alphanumeric groups of a text, in order; `word` is the group being read. */
  function Words(s: string, word: string): seq<string> {
    if s == "" then if word == "" then [] else [word]
    else if Alnum(s[0]) then Words(s[1..], word + [s[0]])
    else (if word == "" then [] else [word]) + Words(s[1..], "")
  }

  lemma {:induction false} SquashKeepsWords(s: string, inRun: bool, word: string)
    requires inRun ==> word == ""
    ensures Words(Squash(s, inRun), word) == Words(s, word)
    decreases |s|
  {
    if s == "" {
    } else {
      if Alnum(s[0]) {
        var rest := Squash(s[1..], false);
        assert ([s[0]] + rest)[1..] == rest;
        SquashKeepsWords(s[1..], false, word + [s[0]]);
      } else {
        var rest := Squash(s[1..], true);
        assert ("-" + rest)[1..] == rest;
        assert "" + rest == rest;
        SquashKeepsWords(s[1..], true, "");
      }
    }
  }

  lemma {:induction false} TrailingHyphen(s: string, word: string)
    ensures Words(s + "-", word) == Words(s, word)
    decreases |s|
  {
    if s == "" {
      assert (s + "-")[1..] == "";
    } else {
      assert (s + "-")[1..] == s[1..] + "-";
      TrailingHyphen(s[1..], if Alnum(s[0]) then word + [s[0]] else "");
    }
  }

  lemma {:induction false} StripLeftKeepsWords(s: string)
    ensures Words(StripLeft(s), "") == Words(s, "")
  {
    if s == "" || s[0] != '-' {
    } else {
      StripLeftKeepsWords(s[1..]);
      assert Words(s, "") == [] + Words(s[1..], "");
    }
  }

  lemma {:induction false} StripRightKeepsWords(s: string)
    ensures Words(StripRight(s), "") == Words(s, "")
  {
    if s == "" || s[|s| - 1] != '-' {
    } else {
      var t := s[..|s| - 1];
      StripRightKeepsWords(t);
      TrailingHyphen(t, "");
      assert s == t + "-";
    }
  }

  /** Before truncation nothing readable is lost, merged, split or reordered: the text and its slug have
      the same words. With the grammar, this determines the slug. */
  lemma SlugifyKeepsWords(text: string)
    ensures Words(Cleaned(text), "") == Words(LowerAll(text), "")
  {
    var low := LowerAll(text);
    SquashKeepsWords(low, false, "");
    StripLeftKeepsWords(Squash(low, false));
    StripRightKeepsWords(StripLeft(Squash(low, false)));
  }
}
