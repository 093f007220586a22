/** The wildcard matcher of trigger conditions and PyTagShield routes. */
module Glob {
  import opened Wrappers

  /** The textbook meaning of a pattern: `*` stands for any string, `?` for any one character. */
  predicate InLanguage(p: string, v: string)
    decreases |p| + |v|
  {
    if p == "" then v == ""
    else if p[0] == '*' then InLanguage(p[1..], v) || (v != "" && InLanguage(p, v[1..]))
    else v != "" && (p[0] == '?' || p[0] == v[0]) && InLanguage(p[1..], v[1..])
  }

  predicate AllStars(p: string) {
    forall i | 0 <= i < |p| :: p[i] == '*'
  }

  predicate CharMatches(p: char, v: char) {
    p == '?' || p == v
  }

  /** The language of the loop: a character that equals the pattern's is eaten first,
      so a star facing a star is a literal and not a wildcard. */
  predicate Accepts(p: string, v: string)
    decreases |p| + |v|, 0
  {
    if v == "" then AllStars(p)
    else if p == "" then false
    else if CharMatches(p[0], v[0]) then Accepts(p[1..], v[1..])
    else p[0] == '*' && AcceptsAfterStar(p[1..], v)
  }

  /** Some suffix of `v` is accepted: the star before `p` absorbs the rest. */
  predicate AcceptsAfterStar(p: string, v: string)
    decreases |p| + |v|, 1
  {
    Accepts(p, v) || (v != "" && AcceptsAfterStar(p, v[1..]))
  }

  lemma {:induction false} AfterStarExtends(p: string, v: string, from: nat, to: nat)
    requires to <= from <= |v|
    requires AcceptsAfterStar(p, v[from..])
    ensures AcceptsAfterStar(p, v[to..])
    decreases from - to
  {
    if to < from {
      assert v[from - 1..][1..] == v[from..];
      AfterStarExtends(p, v, from - 1, to);
    }
  }

  /** Why one saved star is enough.  The pattern segment `s..q` matched the value at
      `base` character by character and ends in a star.  Any other way to accept from a
      place no earlier than the aligned one also passes that star no earlier, so the newer
      star subsumes every choice left to the older one. */
  lemma {:induction false} NewerStarSubsumes(p: string, v: string, s: nat, q: nat, base: nat, a: nat, b: nat,
                                             absorbing: bool)
    requires s <= a <= q < |p| && p[q] == '*'
    requires base + (a - s) <= b <= |v| && base + (q - s) <= |v|
    requires forall k | s <= k < q :: CharMatches(p[k], v[base + (k - s)])
    requires if absorbing then AcceptsAfterStar(p[a..], v[b..]) else Accepts(p[a..], v[b..])
    ensures AcceptsAfterStar(p[q + 1..], v[base + (q - s)..])
    decreases |p| - a, |v| - b, absorbing
  {
    var w := base + (q - s);
    if absorbing {
      if Accepts(p[a..], v[b..]) {
        NewerStarSubsumes(p, v, s, q, base, a, b, false);
      } else {
        assert v[b..][1..] == v[b + 1..];
        NewerStarSubsumes(p, v, s, q, base, a, b + 1, true);
      }
    } else if b == |v| {
      assert p[q + 1..] == p[a..][q + 1 - a..];
      assert Accepts(p[q + 1..], v[|v|..]);
      AfterStarExtends(p[q + 1..], v, |v|, w);
    } else {
      assert p[a..][1..] == p[a + 1..] && v[b..][1..] == v[b + 1..];
      if a == q {
        if v[b] == '*' {
          AfterStarExtends(p[q + 1..], v, b + 1, w);
        } else {
          AfterStarExtends(p[q + 1..], v, b, w);
        }
      } else if CharMatches(p[a], v[b]) {
        NewerStarSubsumes(p, v, s, q, base, a + 1, b + 1, false);
      } else {
        assert CharMatches(p[a], v[base + (a - s)]);
        NewerStarSubsumes(p, v, s, q, base, a + 1, b, true);
      }
    }
  }

  /** When the value ends while the segment `s..q` is aligned with its tail, an earlier
      choice can only accept if the remaining pattern is all stars. */
  lemma {:induction false} ValueEndDecides(p: string, v: string, s: nat, q: nat, base: nat, a: nat, b: nat,
                                           absorbing: bool)
    requires s <= a <= q <= |p|
    requires base + (a - s) <= b <= |v| && base + (q - s) == |v|
    requires forall k | s <= k < q :: CharMatches(p[k], v[base + (k - s)])
    requires if absorbing then AcceptsAfterStar(p[a..], v[b..]) else Accepts(p[a..], v[b..])
    ensures AllStars(p[q..])
    decreases |p| - a, |v| - b, absorbing
  {
    if absorbing {
      if Accepts(p[a..], v[b..]) {
        ValueEndDecides(p, v, s, q, base, a, b, false);
      } else {
        assert v[b..][1..] == v[b + 1..];
        ValueEndDecides(p, v, s, q, base, a, b + 1, true);
      }
    } else if b == |v| {
      assert p[q..] == p[a..][q - a..];
    } else {
      assert p[a..][1..] == p[a + 1..] && v[b..][1..] == v[b + 1..];
      assert CharMatches(p[a], v[base + (a - s)]);
      if CharMatches(p[a], v[b]) {
        ValueEndDecides(p, v, s, q, base, a + 1, b + 1, false);
      } else {
        ValueEndDecides(p, v, s, q, base, a + 1, b, true);
      }
    }
  }

  lemma DropStar(p: string)
    requires p != "" && p[0] == '*'
    ensures AllStars(p) == AllStars(p[1..])
  {
    assert p == [p[0]] + p[1..];
  }

  lemma AllStarsOrNot(p: string)
    ensures p == "" ==> AllStars(p)
    ensures p != "" && p[0] != '*' ==> !AllStars(p)
  {
  }

  /** What the saved star still allows: resuming after it, at a later value index. */
  ghost predicate Resumable(p: string, v: string, star: Option<nat>, starValue: nat)
    requires star.Some? ==> star.value < |p|
  {
    star.Some? && starValue < |v| && AcceptsAfterStar(p[star.value + 1..], v[starValue + 1..])
  }

  /** The characters after the saved star are matched one by one up to the two indices. */
  ghost predicate Aligned(p: string, v: string, pi: nat, vi: nat, star: Option<nat>, starValue: nat) {
    && pi <= |p| && vi <= |v|
    && (star.Some? ==>
        var s := star.value;
        && s < pi && p[s] == '*' && starValue <= vi && pi - (s + 1) == vi - starValue
        && forall k | s + 1 <= k < pi :: CharMatches(p[k], v[starValue + (k - (s + 1))]))
  }

  /** The answer is still the one for the whole input. */
  ghost predicate Open(p: string, v: string, pi: nat, vi: nat, star: Option<nat>, starValue: nat)
    requires Aligned(p, v, pi, vi, star, starValue)
  {
    Accepts(p[pi..], v[vi..]) || Resumable(p, v, star, starValue)
  }

  lemma StepPreservesAnswer(p: string, v: string, pi: nat, vi: nat, star: Option<nat>, starValue: nat)
    requires Aligned(p, v, pi, vi, star, starValue) && vi < |v|
    ensures pi < |p| && CharMatches(p[pi], v[vi]) ==>
      Accepts(p[pi..], v[vi..]) == Accepts(p[pi + 1..], v[vi + 1..])
    ensures pi < |p| && !CharMatches(p[pi], v[vi]) && p[pi] == '*' ==>
      Open(p, v, pi, vi, star, starValue) == (Accepts(p[pi + 1..], v[vi..]) || Resumable(p, v, Some(pi), vi))
    ensures !(pi < |p| && (CharMatches(p[pi], v[vi]) || p[pi] == '*')) ==> !Accepts(p[pi..], v[vi..])
  {
    assert v[vi..][1..] == v[vi + 1..];
    if pi < |p| {
      assert p[pi..][1..] == p[pi + 1..];
      assert AcceptsAfterStar(p[pi + 1..], v[vi..]) ==
        (Accepts(p[pi + 1..], v[vi..]) || AcceptsAfterStar(p[pi + 1..], v[vi + 1..]));
      if p[pi] == '*' && Resumable(p, v, star, starValue) {
        NewerStarSubsumes(p, v, star.value + 1, pi, starValue, star.value + 1, starValue + 1, true);
      }
    }
  }

  lemma ResumePreservesAnswer(p: string, v: string, star: Option<nat>, starValue: nat)
    requires star.Some? && star.value < |p| && starValue < |v|
    ensures Resumable(p, v, star, starValue) ==
      (Accepts(p[star.value + 1..], v[starValue + 1..]) || Resumable(p, v, star, starValue + 1))
  {
    assert v[starValue + 1..] != "" ==> v[starValue + 1..][1..] == v[starValue + 2..];
  }

  /** The three moves of the loop stay aligned. */
  lemma StepStaysAligned(p: string, v: string, pi: nat, vi: nat, star: Option<nat>, starValue: nat)
    requires Aligned(p, v, pi, vi, star, starValue) && vi < |v|
    ensures pi < |p| && (p[pi] == '?' || p[pi] == v[vi]) ==>
      CharMatches(p[pi], v[vi]) && Aligned(p, v, pi + 1, vi + 1, star, starValue)
    ensures pi < |p| && p[pi] == '*' ==> Aligned(p, v, pi + 1, vi, Some(pi), vi)
    ensures star.Some? ==>
      star.value < pi <= |p| && starValue <= vi && Aligned(p, v, star.value + 1, starValue + 1, star, starValue + 1)
  {
  }

  lemma AlignedBounds(p: string, v: string, pi: nat, vi: nat, star: Option<nat>, starValue: nat)
    requires Aligned(p, v, pi, vi, star, starValue)
    ensures pi <= |p| && vi <= |v|
  {
  }

  lemma NothingToResume(p: string, v: string)
    ensures forall starValue :: !Resumable(p, v, None, starValue)
  {
  }

  lemma ValueEndPreservesAnswer(p: string, v: string, pi: nat, star: Option<nat>, starValue: nat)
    requires Aligned(p, v, pi, |v|, star, starValue)
    ensures Open(p, v, pi, |v|, star, starValue) == AllStars(p[pi..])
  {
    if Resumable(p, v, star, starValue) {
      ValueEndDecides(p, v, star.value + 1, pi, starValue, star.value + 1, starValue + 1, true);
    }
  }

  /** The matcher, on every pattern and value. */
  method PatternMatches(p: string, v: string) returns (r: bool)
    ensures r == Accepts(p, v)
  {
    var patternIndex: nat, valueIndex: nat := 0, 0;
    var starIndex: Option<nat> := None;
    var starValueIndex: nat := 0;
    assert p[0..] == p && v[0..] == v;
    NothingToResume(p, v);
    hide Accepts, AcceptsAfterStar, Resumable;
    assert Aligned(p, v, 0, 0, None, 0);
    hide Aligned;
    while valueIndex < |v|
      invariant Aligned(p, v, patternIndex, valueIndex, starIndex, starValueIndex)
      invariant Accepts(p, v) == Open(p, v, patternIndex, valueIndex, starIndex, starValueIndex)
      decreases if starIndex.Some? then |p| - starIndex.value else |p| + 1, |v| - starValueIndex, |v| - valueIndex
    {
      StepPreservesAnswer(p, v, patternIndex, valueIndex, starIndex, starValueIndex);
      StepStaysAligned(p, v, patternIndex, valueIndex, starIndex, starValueIndex);
      if patternIndex < |p| && (p[patternIndex] == '?' || p[patternIndex] == v[valueIndex]) {
        patternIndex, valueIndex := patternIndex + 1, valueIndex + 1;
      } else if patternIndex < |p| && p[patternIndex] == '*' {
        starIndex, starValueIndex := Some(patternIndex), valueIndex;
        patternIndex := patternIndex + 1;
      } else if starIndex.Some? {
        ResumePreservesAnswer(p, v, starIndex, starValueIndex);
        patternIndex, starValueIndex := starIndex.value + 1, starValueIndex + 1;
        valueIndex := starValueIndex;
      } else {
        return false;
      }
    }
    AlignedBounds(p, v, patternIndex, valueIndex, starIndex, starValueIndex);
    ValueEndPreservesAnswer(p, v, patternIndex, starIndex, starValueIndex);
    hide AllStars;
    while patternIndex < |p| && p[patternIndex] == '*'
      invariant patternIndex <= |p|
      invariant Accepts(p, v) == AllStars(p[patternIndex..])
    {
      DropStar(p[patternIndex..]);
      patternIndex := patternIndex + 1;
    }
    AllStarsOrNot(p[patternIndex..]);
    return patternIndex == |p|;
  }

  predicate StarFree(s: string) { '*' !in s }

  predicate WildcardFree(s: string) { '*' !in s && '?' !in s }

  lemma {:induction false} AllStarsInLanguage(p: string, v: string)
    requires AllStars(p) && (p == "" ==> v == "")
    ensures InLanguage(p, v)
    decreases |p| + |v|
  {
    if p != "" {
      if v == "" {
        AllStarsInLanguage(p[1..], v);
      } else {
        AllStarsInLanguage(p, v[1..]);
      }
    }
  }

  /** Soundness on every input: what the matcher accepts is in the pattern's language. */
  lemma {:induction false} AcceptsIsSound(p: string, v: string)
    ensures Accepts(p, v) ==> InLanguage(p, v)
    ensures p != "" && p[0] == '*' && AcceptsAfterStar(p[1..], v) ==> InLanguage(p, v)
    decreases |p| + |v|
  {
    if v == "" {
      if AllStars(p) { AllStarsInLanguage(p, v); }
      if p != "" && p[0] == '*' { AcceptsIsSound(p[1..], v); }
    } else if p != "" {
      AcceptsIsSound(p[1..], v[1..]);
      if p[0] == '*' {
        AcceptsIsSound(p[1..], v);
        AcceptsIsSound(p, v[1..]);
        if InLanguage(p[1..], v[1..]) { EatenStarIsSound(p, v); }
        if AcceptsAfterStar(p[1..], v) && !Accepts(p[1..], v) {
          assert AcceptsAfterStar(p[1..], v[1..]);
        }
      }
    }
  }

  lemma {:induction false} EatenStarIsSound(p: string, v: string)
    requires p != "" && v != "" && p[0] == '*' && InLanguage(p[1..], v[1..])
    ensures InLanguage(p, v)
  {
    assert InLanguage(p, v[1..]);
  }

  /** Completeness for values without a star. */
  lemma {:induction false} AcceptsIsComplete(p: string, v: string)
    requires StarFree(v)
    ensures InLanguage(p, v) ==> Accepts(p, v)
    ensures p != "" && p[0] == '*' && InLanguage(p, v) ==> AcceptsAfterStar(p[1..], v)
    decreases |p| + |v|
  {
    if p != "" {
      AcceptsIsComplete(p[1..], v);
      if v != "" {
        assert v[0] in v;
        assert forall c | c in v[1..] :: c in v;
        AcceptsIsComplete(p[1..], v[1..]);
        AcceptsIsComplete(p, v[1..]);
      } else if InLanguage(p, v) {
        assert p == [p[0]] + p[1..];
      }
    }
  }

  /** The pattern that shows a value with a star is not matched as the language says. */
  function Refuter(v: string): (p: string)
    requires !StarFree(v)
  {
    if v[0] != '*' then [v[0]] + Refuter(v[1..])
    else if |v| == 1 then "*?" else "*"
  }

  lemma {:induction false} RefuterRefutes(v: string)
    requires !StarFree(v)
    ensures InLanguage(Refuter(v), v) && !Accepts(Refuter(v), v)
  {
    if v[0] != '*' {
      RefuterRefutes(v[1..]);
      var p := Refuter(v);
      assert p[1..] == Refuter(v[1..]);
    } else if |v| == 1 {
      assert v == "*";
      assert InLanguage("?", "*") by { assert "?"[1..] == "" && "*"[1..] == ""; }
      assert "*?"[1..] == "?" && "*"[1..] == "";
      assert !AllStars("?") by { assert "?"[0] != '*'; }
      assert InLanguage("*?", "*");
      assert Accepts("*?", "*") == Accepts("?", "");
    } else {
      AllStarsInLanguage("*", v);
      assert "*"[1..] == "";
      assert Accepts("*", v) == Accepts("", v[1..]);
    }
  }

  /** Exactly the values on which the matcher decides every pattern's language: those
      without a star.  A star in the value is eaten as a literal, so that for instance the
      pattern `*` rejects the value `**`. */
  lemma MatcherExactIffValueStarFree(v: string)
    ensures (forall p :: Accepts(p, v) == InLanguage(p, v)) <==> StarFree(v)
  {
    forall p
      ensures Accepts(p, v) ==> InLanguage(p, v)
      ensures StarFree(v) && InLanguage(p, v) ==> Accepts(p, v)
    {
      AcceptsIsSound(p, v);
      if StarFree(v) { AcceptsIsComplete(p, v); }
    }
    if !StarFree(v) { RefuterRefutes(v); }
  }

  /** Equal beginnings are eaten character by character, stars included. */
  lemma {:induction false} EqualPrefixEaten(q: string, p: string, v: string)
    ensures Accepts(q + p, q + v) == Accepts(p, v)
    ensures InLanguage(p, v) ==> InLanguage(q + p, q + v)
  {
    if q == "" {
      assert q + p == p && q + v == v;
    } else {
      EqualPrefixEaten(q[1..], p, v);
      assert (q + p)[1..] == q[1..] + p && (q + v)[1..] == q[1..] + v;
      if q[0] == '*' { assert InLanguage(q[1..] + p, q[1..] + v) ==> InLanguage(q + p, (q + v)[1..]); }
    }
  }

  lemma {:induction false} StarFreeIsExact(p: string, v: string)
    requires StarFree(p)
    ensures Accepts(p, v) == InLanguage(p, v) && (Accepts(p, v) ==> |p| == |v|)
  {
    if p != "" {
      assert p[0] in p && forall c | c in p[1..] :: c in p;
      if v != "" { StarFreeIsExact(p[1..], v[1..]); }
    }
  }

  lemma {:induction false} LastStar(p: string) returns (k: nat)
    requires !StarFree(p)
    ensures k < |p| && p[k] == '*' && StarFree(p[k + 1..])
  {
    if StarFree(p[1..]) {
      k := 0;
      assert p == [p[0]] + p[1..];
    } else {
      k := LastStar(p[1..]);
      k := k + 1;
      assert p[1..][k - 1] == p[k] && p[1..][k..] == p[k + 1..];
    }
  }

  /** A star before a star-free tail: two stars and the tail are in its language, but the loop
      eats the first star as a literal and then has nothing left for the other. */
  lemma LeadingStarRefutes(tail: string)
    requires StarFree(tail)
    ensures InLanguage("*" + tail, "**" + tail) && !Accepts("*" + tail, "**" + tail)
  {
    var p, v := "*" + tail, "**" + tail;
    assert p[1..] == tail && v[1..] == "*" + tail && v[1..][1..] == tail;
    EveryPatternMatchesItself(tail);
    StarFreeIsExact(tail, tail);
    hide StarFree;
    assert !Accepts(p, v) by { StarFreeIsExact(tail, "*" + tail); }
    hide Accepts;
    assert InLanguage(p, tail) && InLanguage(p, "*" + tail);
  }

  /** So a pattern with a star does not match itself with its last star doubled. */
  lemma DoubledStarRefutes(p: string, k: nat)
    requires k < |p| && p[k] == '*' && StarFree(p[k + 1..])
    ensures var v := p[..k] + "**" + p[k + 1..]; InLanguage(p, v) && !Accepts(p, v)
  {
    var tail := p[k + 1..];
    hide InLanguage, Accepts, StarFree;
    LeadingStarRefutes(tail);
    EqualPrefixEaten(p[..k], "*" + tail, "**" + tail);
    assert p == p[..k] + ("*" + tail) && p[..k] + "**" + tail == p[..k] + ("**" + tail);
  }

  /** Exactly the patterns whose language the matcher decides on every value: those without a
      star. */
  lemma MatcherExactIffPatternStarFree(p: string)
    ensures (forall v :: Accepts(p, v) == InLanguage(p, v)) <==> StarFree(p)
  {
    if StarFree(p) {
      forall v
        ensures Accepts(p, v) == InLanguage(p, v)
      {
        StarFreeIsExact(p, v);
      }
    } else {
      var k := LastStar(p);
      DoubledStarRefutes(p, k);
    }
  }

  /** A pattern without wildcards matches itself and nothing else. */
  lemma {:induction false} WildcardFreeMatchesItselfOnly(p: string, v: string)
    requires WildcardFree(p)
    ensures Accepts(p, v) <==> p == v
  {
    if p != "" && v != "" {
      assert p == [p[0]] + p[1..] && v == [v[0]] + v[1..];
      assert p[0] in p && forall c | c in p[1..] :: c in p;
      WildcardFreeMatchesItselfOnly(p[1..], v[1..]);
    } else if p != "" {
      assert p[0] in p;
    }
  }

  /** Every pattern, wildcards included, matches its own text. */
  lemma {:induction false} EveryPatternMatchesItself(p: string)
    ensures Accepts(p, p)
  {
    if p != "" { EveryPatternMatchesItself(p[1..]); }
  }

  /** The pattern with every wildcard replaced by `c`. */
  function Fill(p: string, c: char): (v: string)
    ensures |v| == |p|
  {
    if p == "" then "" else [if p[0] == '*' || p[0] == '?' then c else p[0]] + Fill(p[1..], c)
  }

  lemma {:induction false} PatternMatchesItsFilling(p: string, c: char)
    requires c != '*'
    ensures Accepts(p, Fill(p, c))
    ensures !WildcardFree(p) ==> c in Fill(p, c)
  {
    if p != "" {
      PatternMatchesItsFilling(p[1..], c);
      var v := Fill(p, c);
      assert v[1..] == Fill(p[1..], c);
      assert p == [p[0]] + p[1..];
      assert v == [v[0]] + v[1..];
      if p[0] == '*' {
        assert AcceptsAfterStar(p[1..], v[1..]);
      }
    }
  }
}
