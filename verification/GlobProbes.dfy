/** Names that stand for all to a set of patterns. */
module GlobProbes {
  import opened Wrappers
  import opened Glob

  /** What can be asked of a string: whether a pattern matches it, whether it does after a star
      has absorbed a beginning of it, and whether it is this very word. */
  datatype Question = Matches(q: string) | MatchesAfterStar(q: string) | Is(q: string)

  predicate Holds(question: Question, v: string) {
    match question
    case Matches(q) => Accepts(q, v)
    case MatchesAfterStar(q) => AcceptsAfterStar(q, v)
    case Is(q) => q == v
  }

  function Suffixes(words: set<string>): set<string> {
    set p, i | p in words && 0 <= i <= |p| :: p[i..]
  }

  function Questions(words: set<string>): set<Question> {
    (set q | q in Suffixes(words) :: Matches(q)) + (set q | q in Suffixes(words) :: MatchesAfterStar(q))
    + (set q | q in Suffixes(words) :: Is(q))
  }

  /** The answers to all questions about the suffixes of the words. */
  function Answers(words: set<string>, v: string): set<Question> {
    set question | question in Questions(words) && Holds(question, v)
  }

  function Letters(words: set<string>): set<char> {
    set p, i | p in words && 0 <= i < |p| :: p[i]
  }

  predicate SameAnswers(q: string, v: string, w: string) {
    Accepts(q, v) == Accepts(q, w) && AcceptsAfterStar(q, v) == AcceptsAfterStar(q, w) && (q == v <==> q == w)
  }

  /** No suffix of a word tells the two strings apart. */
  ghost predicate Alike(words: set<string>, v: string, w: string) {
    forall q | q in Suffixes(words) :: SameAnswers(q, v, w)
  }

  lemma SameAnswersIsAlike(words: set<string>, v: string, w: string)
    requires Answers(words, v) == Answers(words, w)
    ensures Alike(words, v, w)
  {
    forall q | q in Suffixes(words)
      ensures SameAnswers(q, v, w)
    {
      assert Matches(q) in Questions(words) && MatchesAfterStar(q) in Questions(words) && Is(q) in Questions(words);
      assert Matches(q) in Answers(words, v) <==> Matches(q) in Answers(words, w);
      assert MatchesAfterStar(q) in Answers(words, v) <==> MatchesAfterStar(q) in Answers(words, w);
      assert Is(q) in Answers(words, v) <==> Is(q) in Answers(words, w);
    }
  }

  /** One more character in front, the same or one that no word has. */
  lemma {:induction false} SameAnswersInFront(q: string, a: char, b: char, v: string, w: string)
    requires forall i | 0 <= i <= |q| :: SameAnswers(q[i..], v, w)
    requires a == b || (a !in q && b !in q)
    ensures SameAnswers(q, [a] + v, [b] + w)
  {
    assert ([a] + v)[1..] == v && ([b] + w)[1..] == w;
    assert q[0..] == q;
    if q != "" {
      forall i | 0 <= i <= |q[1..]|
        ensures SameAnswers(q[1..][i..], v, w)
      {
        assert q[1..][i..] == q[i + 1..];
      }
      SameAnswersInFront(q[1..], a, b, v, w);
      assert q[0] in q;
      assert q == [q[0]] + q[1..];
      assert SameAnswers(q[1..], v, w);
      assert q == [a] + v <==> q[0] == a && q[1..] == v;
      assert q == [b] + w <==> q[0] == b && q[1..] == w;
    }
  }

  lemma AlikeInFront(words: set<string>, a: char, b: char, v: string, w: string)
    requires Alike(words, v, w) && (a == b || (a !in Letters(words) && b !in Letters(words)))
    ensures Alike(words, [a] + v, [b] + w)
  {
    hide SameAnswers;
    forall q | q in Suffixes(words)
      ensures SameAnswers(q, [a] + v, [b] + w)
    {
      var p, k :| p in words && 0 <= k <= |p| && q == p[k..];
      forall i | 0 <= i <= |q|
        ensures SameAnswers(q[i..], v, w)
      {
        assert q[i..] == p[k + i..];
        assert q[i..] in Suffixes(words);
      }
      forall c | c in q
        ensures c in Letters(words)
      {
        var i :| 0 <= i < |q| && q[i] == c;
        assert p[k + i] == c;
      }
      SameAnswersInFront(q, a, b, v, w);
    }
  }

  lemma {:induction false} AlikeAfter(words: set<string>, x: string, v: string, w: string)
    requires Alike(words, v, w)
    ensures Alike(words, x + v, x + w)
  {
    hide Alike;
    if x == "" {
      assert x + v == v && x + w == w;
    } else {
      AlikeAfter(words, x[1..], v, w);
      AlikeInFront(words, x[0], x[0], x[1..] + v, x[1..] + w);
      assert [x[0]] + (x[1..] + v) == x + v && [x[0]] + (x[1..] + w) == x + w;
    }
  }

  lemma AlikeItself(words: set<string>, v: string)
    ensures Alike(words, v, v)
  {
  }

  lemma AlikeTwice(words: set<string>, u: string, v: string, w: string)
    requires Alike(words, u, v) && Alike(words, v, w)
    ensures Alike(words, u, w)
  {
    assert forall q | q in Suffixes(words) :: SameAnswers(q, u, v) && SameAnswers(q, v, w);
  }

  predicate Over(alphabet: set<char>, v: string) {
    forall i | 0 <= i < |v| :: v[i] in alphabet
  }

  /** The character is in no word, unless all characters are. */
  ghost predicate IsOther(words: set<string>, other: char) {
    other in Letters(words) ==> forall c: char :: c in Letters(words)
  }

  lemma SomeOther(words: set<string>) returns (other: char)
    ensures IsOther(words, other)
  {
    hide Letters;
    other := '?';
    if c: char :| c !in Letters(words) { other := c; }
  }

  /** The letters that no word has are all written as `other`. */
  function Renamed(letters: set<char>, other: char, v: string): (w: string)
    ensures |w| == |v| && Over(letters + {other}, w)
  {
    seq(|v|, i requires 0 <= i < |v| => if v[i] in letters then v[i] else other)
  }

  lemma {:induction false} RenamedAlike(words: set<string>, other: char, v: string)
    requires IsOther(words, other)
    ensures Alike(words, v, Renamed(Letters(words), other, v))
  {
    hide Alike, Letters;
    var w := Renamed(Letters(words), other, v);
    if v == "" {
      assert w == v;
      AlikeItself(words, v);
    } else {
      RenamedAlike(words, other, v[1..]);
      assert w[1..] == Renamed(Letters(words), other, v[1..]);
      AlikeInFront(words, v[0], w[0], v[1..], w[1..]);
      assert [v[0]] + v[1..] == v && [w[0]] + w[1..] == w;
    }
  }

  function PowerOfTwo(n: nat): (r: nat)
    ensures r >= 1
  {
    if n == 0 then 1 else 2 * PowerOfTwo(n - 1)
  }

  ghost predicate DistinctSets<T(!new)>(s: seq<set<T>>) {
    forall i, j | 0 <= i < j < |s| :: s[i] != s[j]
  }

  lemma TwoEmpty<T(!new)>(s: seq<set<T>>)
    requires |s| > 1 && forall i | 0 <= i < |s| :: s[i] == {}
    ensures !DistinctSets(s)
  {
    assert s[0] == s[1];
  }

  /** So many different subsets there are at most: as many with an element as without it. */
  lemma {:induction false} FewSubsets<T(!new)>(all: set<T>, s: seq<set<T>>)
    requires DistinctSets(s) && forall i | 0 <= i < |s| :: s[i] <= all
    ensures |s| <= PowerOfTwo(|all|)
    decreases |all|
  {
    if all == {} {
      hide DistinctSets;
      if |s| > 1 { TwoEmpty(s); }
    } else {
      var x :| x in all;
      var without, having := Parted(s, x);
      FewSubsets(all - {x}, without);
      FewSubsets(all - {x}, having);
    }
  }

  /** The sets without `x`, and those with it, less it. */
  lemma {:induction false} Parted<T(!new)>(s: seq<set<T>>, x: T) returns (without: seq<set<T>>, having: seq<set<T>>)
    requires DistinctSets(s)
    ensures |without| + |having| == |s| && DistinctSets(without) && DistinctSets(having)
    ensures forall i | 0 <= i < |without| :: x !in without[i] && without[i] in s
    ensures forall i | 0 <= i < |having| :: x !in having[i] && having[i] + {x} in s
  {
    if s == [] {
      without, having := [], [];
    } else {
      var rest := s[1..];
      assert forall i | 0 <= i < |rest| :: rest[i] == s[i + 1];
      without, having := Parted(rest, x);
      var first := s[0];
      assert first !in rest;
      if x in first {
        assert first - {x} + {x} == first;
        assert first - {x} !in having;
        having := [first - {x}] + having;
      } else {
        assert first !in without;
        without := [first] + without;
      }
    }
  }

  /** How long a name has to be at most to be told from every shorter one. */
  function Limit(words: set<string>): nat {
    PowerOfTwo(|Questions(words)|)
  }

  /** A longer name has a part that can be left out unnoticed. */
  lemma Shortened(words: set<string>, v: string) returns (w: string)
    requires |v| > Limit(words)
    ensures 0 < |w| < |v| && Alike(words, v, w) && forall c | c in w :: c in v
  {
    hide Alike, Questions;
    var answers := seq(|v|, k requires 0 <= k < |v| => Answers(words, v[k + 1..]));
    if DistinctSets(answers) { FewSubsets(Questions(words), answers); }
    var i, j :| 0 <= i < j < |answers| && answers[i] == answers[j];
    w := v[..i + 1] + v[j + 1..];
    hide Answers, Limit;
    SameAnswersIsAlike(words, v[i + 1..], v[j + 1..]);
    AlikeAfter(words, v[..i + 1], v[i + 1..], v[j + 1..]);
    assert v[..i + 1] + v[i + 1..] == v;
  }

  lemma {:induction false} ShortName(words: set<string>, v: string) returns (w: string)
    requires v != ""
    ensures 0 < |w| <= Limit(words) && Alike(words, v, w) && forall c | c in w :: c in v
    decreases |v|
  {
    hide Alike, Limit;
    if |v| <= Limit(words) {
      w := v;
      AlikeItself(words, v);
    } else {
      var u := Shortened(words, v);
      w := ShortName(words, u);
      AlikeTwice(words, v, u, w);
    }
  }

  /** All strings over the alphabet up to a length. */
  function Strings(alphabet: set<char>, limit: nat): set<string> {
    if limit == 0 then {""}
    else {""} + set c, s | c in alphabet && s in Strings(alphabet, limit - 1) :: [c] + s
  }

  lemma {:induction false} StringsAre(alphabet: set<char>, limit: nat, v: string)
    ensures v in Strings(alphabet, limit) <==> |v| <= limit && Over(alphabet, v)
  {
    if limit > 0 {
      if v in Strings(alphabet, limit) && v != "" {
        var c, s :| c in alphabet && s in Strings(alphabet, limit - 1) && v == [c] + s;
        StringsAre(alphabet, limit - 1, s);
      }
      if 0 < |v| <= limit && Over(alphabet, v) {
        StringsAre(alphabet, limit - 1, v[1..]);
        assert v == [v[0]] + v[1..];
      }
    }
  }

  /** The names to try: over the letters of the words and one other character. */
  function Probes(words: set<string>, other: char): set<string> {
    Strings(Letters(words) + {other}, Limit(words)) - {""}
  }

  /** Every name is like one of them to all the words. */
  lemma EveryNameHasProbe(words: set<string>, other: char, v: string) returns (probe: string)
    requires v != "" && IsOther(words, other)
    ensures probe in Probes(words, other) && probe != "" && Alike(words, v, probe)
  {
    hide Alike, Letters, Limit;
    var w := Renamed(Letters(words), other, v);
    RenamedAlike(words, other, v);
    probe := ShortName(words, w);
    AlikeTwice(words, v, w, probe);
    forall i | 0 <= i < |probe|
      ensures probe[i] in Letters(words) + {other}
    {
      assert probe[i] in w;
      var k :| 0 <= k < |w| && w[k] == probe[i];
    }
    StringsAre(Letters(words) + {other}, Limit(words), probe);
  }

  lemma AlikeToWord(words: set<string>, p: string, v: string, w: string)
    requires Alike(words, v, w) && p in words
    ensures Accepts(p, v) == Accepts(p, w) && (p == v <==> p == w)
  {
    assert p[0..] == p;
    assert SameAnswers(p[0..], v, w);
  }
}
