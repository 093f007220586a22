/** The part of a path that stands for an environment, made from its name. */
module Slugs {
  predicate IsLetterOrDigit(c: char) { '0' <= c <= '9' || 'A' <= c <= 'Z' || 'a' <= c <= 'z' }

  function Lower(c: char): char { if 'A' <= c <= 'Z' then (c as int + 32) as char else c }

  function SlugChar(c: char): char { if IsLetterOrDigit(c) then Lower(c) else '-' }

  function Mapped(name: string): string {
    seq(|name|, i requires 0 <= i < |name| => SlugChar(name[i]))
  }

  /** `lstrip("-")` */
  function StripLeft(s: string): string {
    if s != "" && s[0] == '-' then StripLeft(s[1..]) else s
  }

  /** `rstrip("-")` */
  function StripRight(s: string): string {
    if s != "" && s[|s| - 1] == '-' then StripRight(s[..|s| - 1]) else s
  }

  /** Every run of dashes becomes one. */
  function Collapse(s: string): string {
    if |s| < 2 then s
    else if s[0] == '-' && s[1] == '-' then Collapse(s[1..])
    else [s[0]] + Collapse(s[1..])
  }

  /** The slug of a name, or nothing if the name has no letter and no digit. */
  function Slug(name: string): string {
    var slug := Collapse(StripRight(StripLeft(Mapped(name))));
    if |slug| <= 96 then slug else slug[..96]
  }

  /** `replace("--", "-")`: pairs of dashes from left to right. */
  function HalveDashes(s: string): string {
    if |s| < 2 then s
    else if s[0] == '-' && s[1] == '-' then "-" + HalveDashes(s[2..])
    else [s[0]] + HalveDashes(s[1..])
  }

  predicate HasDoubleDash(s: string) {
    exists i | 0 <= i < |s| - 1 :: s[i] == '-' && s[i + 1] == '-'
  }

  /** Only the first character tells whether a dash in front is one too many. */
  lemma {:induction false} CollapseAfterDash(s: string)
    ensures Collapse("-" + s) == if s != "" && s[0] == '-' then Collapse(s) else "-" + Collapse(s)
  {
    assert ("-" + s)[1..] == s;
  }

  lemma {:induction false} HalvedStart(s: string)
    ensures (HalveDashes(s) == "" <==> s == "") && (s != "" ==> HalveDashes(s)[0] == s[0])
  {
  }

  /** Halving runs of dashes does not change what they collapse to. */
  lemma {:induction false} HalvingCollapses(s: string)
    ensures Collapse(HalveDashes(s)) == Collapse(s)
  {
    if |s| < 2 {
    } else if s[0] == '-' && s[1] == '-' {
      HalvingCollapses(s[2..]);
      HalvedStart(s[2..]);
      CollapseAfterDash(HalveDashes(s[2..]));
      CollapseAfterDash(s[2..]);
      assert s[1..] == "-" + s[2..];
    } else {
      HalvingCollapses(s[1..]);
      HalvedStart(s[1..]);
      assert ([s[0]] + HalveDashes(s[1..]))[1..] == HalveDashes(s[1..]);
    }
  }

  lemma {:induction false} HalvingShortens(s: string)
    ensures |HalveDashes(s)| <= |s| && (HasDoubleDash(s) ==> |HalveDashes(s)| < |s|)
  {
    if |s| < 2 {
    } else if s[0] == '-' && s[1] == '-' {
      HalvingShortens(s[2..]);
    } else {
      HalvingShortens(s[1..]);
      if HasDoubleDash(s) {
        var i :| 0 <= i < |s| - 1 && s[i] == '-' && s[i + 1] == '-';
        assert s[1..][i - 1] == '-' && s[1..][i] == '-';
      }
    }
  }

  lemma {:induction false} AlreadyCollapsed(s: string)
    requires !HasDoubleDash(s)
    ensures Collapse(s) == s
  {
    if |s| >= 2 {
      assert !(s[0] == '-' && s[1] == '-');
      forall i | 0 <= i < |s[1..]| - 1
        ensures !(s[1..][i] == '-' && s[1..][i + 1] == '-')
      {
        assert !(s[i + 1] == '-' && s[i + 2] == '-');
      }
      AlreadyCollapsed(s[1..]);
    }
  }

  /** `environment_slug`; nothing comes back where it raises. */
  method EnvironmentSlug(name: string) returns (slug: string)
    ensures slug == Slug(name)
  {
    slug := StripRight(StripLeft(Mapped(name)));
    while HasDoubleDash(slug)
      invariant Collapse(slug) == Collapse(StripRight(StripLeft(Mapped(name))))
      decreases |slug|
    {
      HalvingCollapses(slug);
      HalvingShortens(slug);
      slug := HalveDashes(slug);
    }
    AlreadyCollapsed(slug);
    if |slug| > 96 { slug := slug[..96]; }
  }

  predicate SlugLetter(c: char) { '0' <= c <= '9' || 'a' <= c <= 'z' || c == '-' }

  ghost predicate SlugLetters(s: string) {
    forall i | 0 <= i < |s| :: SlugLetter(s[i])
  }

  lemma {:induction false} StripLeftIs(s: string)
    ensures SlugLetters(s) ==> SlugLetters(StripLeft(s))
    ensures StripLeft(s) != "" ==> StripLeft(s)[0] != '-'
    ensures StripLeft(s) == "" <==> forall i | 0 <= i < |s| :: s[i] == '-'
  {
    if s != "" && s[0] == '-' {
      StripLeftIs(s[1..]);
      assert forall i | 1 <= i < |s| :: s[i] == s[1..][i - 1];
    }
  }

  lemma {:induction false} StripRightIs(s: string)
    requires s != "" && s[0] != '-'
    ensures SlugLetters(s) ==> SlugLetters(StripRight(s))
    ensures StripRight(s) != "" && StripRight(s)[0] == s[0]
  {
    if s[|s| - 1] == '-' { StripRightIs(s[..|s| - 1]); }
  }

  lemma {:induction false} CollapseIs(s: string)
    ensures SlugLetters(s) ==> SlugLetters(Collapse(s))
    ensures !HasDoubleDash(Collapse(s)) && (Collapse(s) == "" <==> s == "")
    ensures s != "" ==> Collapse(s)[0] == s[0]
  {
    if |s| >= 2 {
      CollapseIs(s[1..]);
      var rest := Collapse(s[1..]);
      if !(s[0] == '-' && s[1] == '-') {
        assert forall i | 1 <= i < |Collapse(s)| :: Collapse(s)[i] == rest[i - 1];
        forall i | 0 <= i < |Collapse(s)| - 1
          ensures !(Collapse(s)[i] == '-' && Collapse(s)[i + 1] == '-')
        {
          if i > 0 { assert !(rest[i - 1] == '-' && rest[i] == '-'); }
        }
      }
    }
  }

  /** What a slug looks like: at most 96 lower-case letters, digits and single dashes, the
      first no dash.  Only names without a letter or digit have none. */
  lemma SlugShape(name: string)
    ensures |Slug(name)| <= 96 && SlugLetters(Slug(name)) && !HasDoubleDash(Slug(name))
    ensures Slug(name) != "" ==> Slug(name)[0] != '-'
    ensures Slug(name) == "" <==> forall i | 0 <= i < |name| :: !IsLetterOrDigit(name[i])
  {
    assert SlugLetters(Mapped(name));
    assert forall i | 0 <= i < |name| :: Mapped(name)[i] == '-' <==> !IsLetterOrDigit(name[i]);
    StripLeftIs(Mapped(name));
    var stripped := StripLeft(Mapped(name));
    if stripped != "" {
      StripRightIs(stripped);
      CollapseIs(StripRight(stripped));
    }
  }

  /** Only letters and digits count: names that differ in the characters between them have one
      slug. */
  lemma SeparatorsDoNotCount(one: string, other: string)
    requires |one| == |other|
    requires forall i | 0 <= i < |one| :: one[i] == other[i] || !(IsLetterOrDigit(one[i]) || IsLetterOrDigit(other[i]))
    ensures Slug(one) == Slug(other)
  {
    assert Mapped(one) == Mapped(other);
  }

  lemma {:induction false} NothingToStrip(s: string)
    requires '-' !in s
    ensures StripLeft(s) == s && StripRight(s) == s && Collapse(s) == s
  {
    if s != "" { assert s[0] in s && s[|s| - 1] in s; }
    AlreadyCollapsed(s);
  }

  /** A name of lower-case letters and digits is its own slug, as far as 96 characters go. */
  lemma PlainNamesAreSlugs(name: string)
    requires forall i | 0 <= i < |name| :: SlugLetter(name[i]) && name[i] != '-'
    ensures Slug(name) == if |name| <= 96 then name else name[..96]
  {
    assert Mapped(name) == name;
    NothingToStrip(name);
  }

  /** Letter case does not count. */
  lemma CaseDoesNotCount(one: string, other: string)
    requires |one| == |other| && forall i | 0 <= i < |one| :: Lower(one[i]) == Lower(other[i])
    ensures Slug(one) == Slug(other)
  {
    assert Mapped(one) == Mapped(other);
  }
}
