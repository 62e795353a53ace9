/** What a global `replace` does, said without a scan: its matches follow one another, and nothing that is kept
    starts one. That determines them. */
module Leftmost {
  import opened Text
  import opened Placeholders
  import opened Patterns

  predicate MatchAt(s: string, len: Matcher, p: nat)
    requires p <= |s|
  {
    0 < len(s[p..]) <= |s| - p
  }

  predicate Covered(spans: seq<Range>, p: nat) {
    exists i :: 0 <= i < |spans| && spans[i].from <= p < spans[i].to
  }

  /** Each of these places is a whole match at or behind p. */
  predicate WholeMatches(s: string, len: Matcher, spans: seq<Range>, p: nat) {
    forall i | 0 <= i < |spans| ::
      p <= spans[i].from < spans[i].to <= |s| && len(s[spans[i].from..]) == spans[i].to - spans[i].from
  }

  predicate Apart(spans: seq<Range>) {
    forall i, j | 0 <= i < j < |spans| :: spans[i].to <= spans[j].from
  }

  /** The matches from p on: whole, one behind the other, and no other character from p on starts one. */
  ghost predicate AllMatches(s: string, len: Matcher, spans: seq<Range>, p: nat) {
    && WholeMatches(s, len, spans, p)
    && Apart(spans)
    && forall q: nat | p <= q < |s| && !Covered(spans, q) :: !MatchAt(s, len, q)
  }

  /** The text from p on with these stretches replaced by these texts. */
  function Filled(s: string, p: nat, spans: seq<Range>, puts: seq<string>): string
    decreases |spans|
  {
    if spans == [] || puts == [] then if p <= |s| then s[p..] else []
    else
      (if p <= spans[0].from <= |s| then s[p..spans[0].from] else []) + puts[0]
      + Filled(s, spans[0].to, spans[1..], puts[1..])
  }

  lemma NothingFilled(s: string, p: nat)
    requires p <= |s|
    ensures Filled(s, p, [], []) == s[p..]
  {
  }

  lemma ConsFilled(s: string, p: nat, to: nat, put: string, spans: seq<Range>, puts: seq<string>)
    requires p <= to <= |s|
    ensures Filled(s, p, [Range(p, to)] + spans, [put] + puts) == put + Filled(s, to, spans, puts)
  {
    var all, texts := [Range(p, to)] + spans, [put] + puts;
    assert all[1..] == spans && texts[1..] == puts && s[p..p] == [];
    assert [] + put == put;
  }

  lemma SkipFilled(s: string, p: nat, spans: seq<Range>, puts: seq<string>)
    requires p < |s| && |spans| == |puts| && (spans != [] ==> p < spans[0].from <= |s|)
    ensures Filled(s, p, spans, puts) == [s[p]] + Filled(s, p + 1, spans, puts)
  {
    if spans != [] {
      assert s[p..spans[0].from] == [s[p]] + s[p + 1..spans[0].from];
    }
  }

  lemma ConsMatches(s: string, len: Matcher, spans: seq<Range>, p: nat, to: nat)
    requires p < to <= |s| && len(s[p..]) == to - p && AllMatches(s, len, spans, to)
    ensures AllMatches(s, len, [Range(p, to)] + spans, p)
  {
    var all := [Range(p, to)] + spans;
    forall i | 0 <= i < |all|
      ensures p <= all[i].from < all[i].to <= |s| && len(s[all[i].from..]) == all[i].to - all[i].from
    {
      assert i > 0 ==> all[i] == spans[i - 1];
    }
    forall q: nat | p <= q < |s| && !Covered(all, q)
      ensures !MatchAt(s, len, q)
    {
      assert q >= to by { assert all[0] == Range(p, to); }
      forall i | 0 <= i < |spans|
        ensures !(spans[i].from <= q < spans[i].to)
      {
        assert all[i + 1] == spans[i];
      }
    }
  }

  lemma SkipMatches(s: string, len: Matcher, spans: seq<Range>, p: nat)
    requires p < |s| && !MatchAt(s, len, p) && AllMatches(s, len, spans, p + 1)
    ensures AllMatches(s, len, spans, p)
  {
  }

  lemma NoMatches(s: string, len: Matcher)
    ensures AllMatches(s, len, [], |s|)
  {
  }

  /** What f puts in for a match at this place. */
  function PutAt(s: string, f: Rewriter, r: Range): string {
    if r.from <= r.to <= |s| && f(s[r.from..]).Some? then Apply(s[r.from..r.to], f(s[r.from..]).value.edit) else []
  }

  /** The pattern of a replacer. */
  function LenOf(f: Rewriter): Matcher {
    (s: string) => if f(s).Some? then f(s).value.len else 0
  }

  lemma {:induction false} RewriteFrom(s: string, f: Rewriter, p: nat) returns (spans: seq<Range>, puts: seq<string>)
    requires p <= |s|
    ensures AllMatches(s, LenOf(f), spans, p) && |puts| == |spans|
    ensures forall i | 0 <= i < |spans| :: puts[i] == PutAt(s, f, spans[i])
    ensures Rewrite(s[p..], f) == Filled(s, p, spans, puts)
    decreases |s| - p
  {
    hide Rewrite, Filled, AllMatches;
    RewriteParts(s[p..], f);
    if p == |s| {
      spans, puts := [], [];
      NoMatches(s, LenOf(f));
      NothingFilled(s, p);
    } else if Matches(s[p..], f) {
      var to := p + f(s[p..]).value.len;
      assert s[p..][..to - p] == s[p..to] && s[p..][to - p..] == s[to..];
      spans, puts := RewriteFrom(s, f, to);
      ConsMatches(s, LenOf(f), spans, p, to);
      ConsFilled(s, p, to, PutAt(s, f, Range(p, to)), spans, puts);
      spans, puts := [Range(p, to)] + spans, [PutAt(s, f, Range(p, to))] + puts;
    } else {
      assert s[p..][1..] == s[p + 1..];
      spans, puts := RewriteFrom(s, f, p + 1);
      BehindStart(s, LenOf(f), spans, p + 1);
      SkipMatches(s, LenOf(f), spans, p);
      SkipFilled(s, p, spans, puts);
    }
  }

  lemma BehindStart(s: string, len: Matcher, spans: seq<Range>, p: nat)
    requires AllMatches(s, len, spans, p)
    ensures spans != [] ==> p <= spans[0].from < spans[0].to <= |s|
  {
  }

  /** A replace puts something in for all the matches and leaves the rest as it is. */
  lemma RewriteIs(s: string, f: Rewriter) returns (spans: seq<Range>, puts: seq<string>)
    ensures AllMatches(s, LenOf(f), spans, 0) && |puts| == |spans|
    ensures forall i | 0 <= i < |spans| :: puts[i] == PutAt(s, f, spans[i])
    ensures Rewrite(s, f) == Filled(s, 0, spans, puts)
  {
    assert s[0..] == s;
    spans, puts := RewriteFrom(s, f, 0);
  }

  lemma {:induction false} LiftFrom(mark: char, s: string, len: Matcher, next: nat, p: nat) returns (spans: seq<Range>)
    requires p <= |s|
    ensures AllMatches(s, len, spans, p) && |Lifted(s[p..], len)| == |spans|
    ensures forall i | 0 <= i < |spans| ::
              spans[i].from <= spans[i].to <= |s| && Lifted(s[p..], len)[i] == s[spans[i].from..spans[i].to]
    ensures Lift(mark, s[p..], len, next) == Filled(s, p, spans, Tokens(mark, next, |spans|))
    decreases |s| - p
  {
    hide Lift, Lifted, Filled, AllMatches, Shown;
    LiftNothing(mark, len);
    NoTokensLeft(mark, next);
    if p == |s| {
      spans := [];
      NoMatches(s, len);
      NothingFilled(s, p);
      return;
    }
    LiftStep(mark, s[p..], len, next);
    if MatchAt(s, len, p) {
      var to := p + len(s[p..]);
      assert s[p..][..to - p] == s[p..to] && s[p..][to - p..] == s[to..];
      var rest := LiftFrom(mark, s, len, next + 1, to);
      ConsMatches(s, len, rest, p, to);
      ConsFilled(s, p, to, Shown(mark, Token(next)), rest, Tokens(mark, next + 1, |rest|));
      OneMoreToken(mark, next, |rest|);
      spans := [Range(p, to)] + rest;
    } else {
      assert s[p..][1..] == s[p + 1..];
      spans := LiftFrom(mark, s, len, next, p + 1);
      BehindStart(s, len, spans, p + 1);
      SkipMatches(s, len, spans, p);
      SkipFilled(s, p, spans, Tokens(mark, next, |spans|));
    }
  }

  /** The tokens of n spans, numbered from next on. */
  function Tokens(mark: char, next: nat, n: nat): (r: seq<string>)
    ensures |r| == n
  {
    seq(n, i requires 0 <= i < n => Shown(mark, Token(next + i)))
  }

  lemma NoTokensLeft(mark: char, next: nat)
    ensures Tokens(mark, next, 0) == []
  {
  }

  lemma OneMoreToken(mark: char, next: nat, n: nat)
    ensures Tokens(mark, next, n + 1) == [Shown(mark, Token(next))] + Tokens(mark, next + 1, n)
  {
    hide Shown;
  }

  /** Lifting takes out all the matches, in order, and puts one numbered token in the place of each. */
  lemma LiftIs(mark: char, s: string, len: Matcher, next: nat) returns (spans: seq<Range>)
    ensures AllMatches(s, len, spans, 0) && |Lifted(s, len)| == |spans|
    ensures forall i | 0 <= i < |spans| ::
              spans[i].from <= spans[i].to <= |s| && Lifted(s, len)[i] == s[spans[i].from..spans[i].to]
    ensures Lift(mark, s, len, next) == Filled(s, 0, spans, Tokens(mark, next, |spans|))
  {
    assert s[0..] == s;
    spans := LiftFrom(mark, s, len, next, 0);
  }

  lemma FirstSpan(s: string, len: Matcher, a: seq<Range>, b: seq<Range>, p: nat)
    requires AllMatches(s, len, a, p) && AllMatches(s, len, b, p) && a != []
    ensures b != [] && b[0].from <= a[0].from
  {
    var q := a[0].from;
    assert MatchAt(s, len, q);
    assert Covered(b, q);
  }

  lemma RestMatches(s: string, len: Matcher, spans: seq<Range>, p: nat)
    requires spans != [] && AllMatches(s, len, spans, p)
    ensures AllMatches(s, len, spans[1..], spans[0].to)
  {
    var rest := spans[1..];
    assert forall i | 0 <= i < |rest| :: rest[i] == spans[i + 1];
    forall q: nat | spans[0].to <= q < |s| && !Covered(rest, q)
      ensures !MatchAt(s, len, q)
    {
      forall i | 0 <= i < |spans|
        ensures !(spans[i].from <= q < spans[i].to)
      {
        assert i > 0 ==> rest[i - 1] == spans[i];
      }
    }
  }

  /** There is one such list of places only. */
  lemma {:induction false} MatchesAreDetermined(s: string, len: Matcher, a: seq<Range>, b: seq<Range>, p: nat)
    requires AllMatches(s, len, a, p) && AllMatches(s, len, b, p)
    ensures a == b
    decreases |a|
  {
    if a == [] {
      if b != [] { FirstSpan(s, len, b, a, p); }
    } else {
      FirstSpan(s, len, a, b, p);
      FirstSpan(s, len, b, a, p);
      assert a[0] == b[0];
      RestMatches(s, len, a, p);
      RestMatches(s, len, b, p);
      MatchesAreDetermined(s, len, a[1..], b[1..], a[0].to);
    }
  }

  /** The first match is found: none starts before it. */
  lemma {:induction false} FindIsFirst(s: string, len: Matcher)
    ensures Find(s, len).Some? ==> forall p: nat | p < Find(s, len).value :: !MatchAt(s, len, p)
    ensures Find(s, len).None? ==> forall p: nat | p <= |s| :: !MatchAt(s, len, p)
  {
    assert s[0..] == s;
    if s != [] && !(0 < len(s) <= |s|) {
      FindIsFirst(s[1..], len);
      forall p: nat | 0 < p <= |s| && !MatchAt(s[1..], len, p - 1)
        ensures !MatchAt(s, len, p)
      {
        assert s[1..][p - 1..] == s[p..];
      }
    }
  }

  predicate StandsAt(s: string, pattern: string, p: nat) {
    p + |pattern| <= |s| && s[p..p + |pattern|] == pattern
  }

  lemma ExactlyStands(s: string, pattern: string, p: nat)
    requires pattern != [] && p <= |s|
    ensures MatchAt(s, Exactly(pattern), p) <==> StandsAt(s, pattern, p)
  {
    if p + |pattern| <= |s| {
      assert s[p..][..|pattern|] == s[p..p + |pattern|];
    }
  }

  /** Where the first match of a fixed text is. */
  lemma FindText(s: string, pattern: string, k: nat)
    requires pattern != []
    ensures Find(s, Exactly(pattern)) == Some(k) <==>
            StandsAt(s, pattern, k) && forall p: nat | p < k :: !StandsAt(s, pattern, p)
  {
    hide Find, MatchAt, StandsAt, Exactly;
    FindIsFirst(s, Exactly(pattern));
    forall p: nat | p <= |s|
      ensures MatchAt(s, Exactly(pattern), p) <==> StandsAt(s, pattern, p)
    {
      ExactlyStands(s, pattern, p);
    }
    FoundMatches(s, Exactly(pattern));
    StandsWithin(s, pattern);
  }

  lemma FoundMatches(s: string, len: Matcher)
    ensures Find(s, len).Some? ==> Find(s, len).value <= |s| && MatchAt(s, len, Find(s, len).value)
  {
  }

  lemma StandsWithin(s: string, pattern: string)
    ensures forall p: nat | StandsAt(s, pattern, p) :: p <= |s|
  {
  }
}
