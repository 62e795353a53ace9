/** `replace` with a global pattern: what is found, and what takes its place. */
module Patterns {
  import opened Text
  import opened Placeholders

  /** How far the first match is. */
  function Find(s: string, len: Matcher): (r: Option<nat>)
    ensures r.Some? ==> r.value <= |s| && 0 < len(s[r.value..]) <= |s| - r.value
  {
    if 0 < len(s) <= |s| then Some(0)
    else if s == [] then None
    else match Find(s[1..], len) case None => None case Some(k) => Some(k + 1)
  }

  function Exactly(pattern: string): Matcher {
    (s: string) => if pattern <= s then |pattern| else 0
  }

  /** One match and what takes its place. */
  datatype Found = Found(len: nat, edit: Edit)

  /** What a `replace` finds at the front of a text. */
  type Rewriter = string -> Option<Found>

  predicate Matches(s: string, f: Rewriter) {
    f(s).Some? && 0 < f(s).value.len <= |s|
  }

  /** `replace(pattern, replacer)`: every match from the left. */
  function Rewrite(s: string, f: Rewriter): string
    decreases |s|
  {
    if s == [] then []
    else if Matches(s, f) then
      var m := f(s).value;
      Apply(s[..m.len], m.edit) + Rewrite(s[m.len..], f)
    else [s[0]] + Rewrite(s[1..], f)
  }

  /** `replace(pattern, put)`: every match becomes the same text. */
  function Put(len: Matcher, put: string): Rewriter {
    (s: string) => if len(s) == 0 then None else Some(Found(len(s), [Literal(put)]))
  }

  lemma RewriteParts(s: string, f: Rewriter)
    ensures s == [] ==> Rewrite(s, f) == []
    ensures Matches(s, f) ==>
              Rewrite(s, f) == Apply(s[..f(s).value.len], f(s).value.edit) + Rewrite(s[f(s).value.len..], f)
    ensures s != [] && !Matches(s, f) ==> Rewrite(s, f) == [s[0]] + Rewrite(s[1..], f)
  {
  }

  // ------------------------------------------------------ finding and passing

  /** The pattern starts with this character. */
  ghost predicate StartsWith(len: Matcher, c: char) {
    forall s: string | s == [] || s[0] != c :: len(s) == 0
  }

  lemma {:induction false} FindFrom(pre: string, rest: string, len: Matcher, c: char)
    requires StartsWith(len, c) && c !in pre && 0 < len(rest) <= |rest|
    ensures Find(pre + rest, len) == Some(|pre|)
  {
    if pre == [] {
      assert pre + rest == rest;
    } else {
      assert (pre + rest)[1..] == pre[1..] + rest && (pre + rest)[0] == pre[0];
      FindFrom(pre[1..], rest, len, c);
    }
  }

  ghost predicate RewritesFrom(f: Rewriter, c: char) {
    forall s: string | s == [] || s[0] != c :: !Matches(s, f)
  }

  /** Whatever stands where no match starts is kept. */
  lemma {:induction false} RewritePasses(pre: string, rest: string, f: Rewriter)
    requires forall i | 0 <= i < |pre| :: !Matches(pre[i..] + rest, f)
    ensures Rewrite(pre + rest, f) == pre + Rewrite(rest, f)
  {
    hide Rewrite, Matches;
    if pre == [] {
      assert pre + rest == rest && pre + Rewrite(rest, f) == Rewrite(rest, f);
    } else {
      assert pre[0..] + rest == pre + rest && (pre + rest)[1..] == pre[1..] + rest;
      RewriteParts(pre + rest, f);
      forall i | 0 <= i < |pre| - 1
        ensures !Matches(pre[1..][i..] + rest, f)
      {
        assert pre[1..][i..] == pre[i + 1..];
      }
      RewritePasses(pre[1..], rest, f);
      assert [pre[0]] + pre[1..] == pre;
      Assoc([pre[0]], pre[1..], Rewrite(rest, f));
    }
  }

  lemma RewriteSkips(pre: string, rest: string, f: Rewriter, c: char)
    requires RewritesFrom(f, c) && c !in pre
    ensures Rewrite(pre + rest, f) == pre + Rewrite(rest, f)
  {
    forall i | 0 <= i < |pre|
      ensures !Matches(pre[i..] + rest, f)
    {
      assert (pre[i..] + rest)[0] == pre[i];
    }
    RewritePasses(pre, rest, f);
  }

  lemma RewriteNothing(s: string, f: Rewriter, c: char)
    requires RewritesFrom(f, c) && c !in s
    ensures Rewrite(s, f) == s
  {
    hide Rewrite;
    RewriteSkips(s, [], f, c);
    RewriteParts([], f);
    assert s + [] == s;
  }

  /** A match at the front. */
  lemma RewriteAt(w: string, rest: string, f: Rewriter)
    requires Matches(w + rest, f) && f(w + rest).value.len == |w|
    ensures Rewrite(w + rest, f) == Apply(w, f(w + rest).value.edit) + Rewrite(rest, f)
  {
    hide Rewrite;
    RewriteParts(w + rest, f);
    assert (w + rest)[..|w|] == w && (w + rest)[|w|..] == rest;
  }

  lemma PutAtFront(w: string, rest: string, len: Matcher, put: string)
    requires w != [] && len(w + rest) == |w|
    ensures Rewrite(w + rest, Put(len, put)) == put + Rewrite(rest, Put(len, put))
  {
    hide Rewrite;
    RewriteAt(w, rest, Put(len, put));
    assert [Literal(put)][1..] == [] && put + [] == put;
    assert Apply(w, [Literal(put)]) == put + Apply(w, []);
  }

  lemma {:induction false} LiftPassesOver(mark: char, pre: string, rest: string, len: Matcher, next: nat)
    requires forall i | 0 <= i < |pre| :: len(pre[i..] + rest) == 0
    ensures Lift(mark, pre + rest, len, next) == pre + Lift(mark, rest, len, next)
    ensures Lifted(pre + rest, len) == Lifted(rest, len)
  {
    hide Lift, Lifted;
    if pre == [] {
      assert pre + rest == rest && pre + Lift(mark, rest, len, next) == Lift(mark, rest, len, next);
    } else {
      assert pre[0..] + rest == pre + rest && (pre + rest)[1..] == pre[1..] + rest;
      LiftStep(mark, pre + rest, len, next);
      forall i | 0 <= i < |pre| - 1
        ensures len(pre[1..][i..] + rest) == 0
      {
        assert pre[1..][i..] == pre[i + 1..];
      }
      LiftPassesOver(mark, pre[1..], rest, len, next);
      assert [pre[0]] + pre[1..] == pre;
      Assoc([pre[0]], pre[1..], Lift(mark, rest, len, next));
    }
  }

  lemma LiftSkipsOver(mark: char, pre: string, rest: string, len: Matcher, c: char, next: nat)
    requires StartsWith(len, c) && c !in pre
    ensures Lift(mark, pre + rest, len, next) == pre + Lift(mark, rest, len, next)
    ensures Lifted(pre + rest, len) == Lifted(rest, len)
  {
    forall i | 0 <= i < |pre|
      ensures len(pre[i..] + rest) == 0
    {
      assert (pre[i..] + rest)[0] == pre[i];
    }
    LiftPassesOver(mark, pre, rest, len, next);
  }

  lemma LiftAt(mark: char, w: string, rest: string, len: Matcher, next: nat)
    requires w != [] && len(w + rest) == |w|
    ensures Lift(mark, w + rest, len, next) == Shown(mark, Token(next)) + Lift(mark, rest, len, next + 1)
    ensures Lifted(w + rest, len) == [w] + Lifted(rest, len)
  {
    hide Lift, Lifted, Shown;
    LiftStep(mark, w + rest, len, next);
    assert (w + rest)[..|w|] == w && (w + rest)[|w|..] == rest;
  }

  // --------------------------------------------------------------- deleting

  /** A match that is deleted lies between angle brackets. */
  ghost predicate BracketedMatches(len: Matcher) {
    forall s: string | 0 < len(s) <= |s| :: s[0] == '<' && s[len(s) - 1] == '>'
  }

  lemma CutsConcat(s: string, a: seq<Range>, b: seq<Range>)
    requires AllBracketed(s, a) && AllBracketed(AfterCuts(s, a), b)
    ensures AllBracketed(s, a + b) && AfterCuts(s, a + b) == AfterCuts(AfterCuts(s, a), b)
    decreases |a|
  {
    if a == [] {
      assert a + b == b;
    } else {
      CutsConcat(Delete(s, a[0].from, a[0].to), a[1..], b);
      assert (a + b)[1..] == a[1..] + b;
    }
  }

  /** Replacing every match by nothing is a row of deletions. */
  lemma {:induction false} RemovalIsCuts(pre: string, s: string, len: Matcher) returns (cuts: seq<Range>)
    requires BracketedMatches(len)
    ensures AllBracketed(pre + s, cuts) && AfterCuts(pre + s, cuts) == pre + Rewrite(s, Put(len, ""))
    decreases |s|
  {
    hide Rewrite, AllBracketed, AfterCuts;
    NoCuts(pre + s);
    if s == [] {
      NothingRewritten(Put(len, ""));
      cuts := [];
    } else if 0 < len(s) <= |s| {
      var rest := RemovalIsCuts(pre, s[len(s)..], len);
      MatchRemoved(s, len);
      CutFront(pre, s, len(s), rest);
      cuts := [Range(|pre|, |pre| + len(s))] + rest;
    } else {
      RewriteParts(s, Put(len, ""));
      cuts := RemovalIsCuts(pre + [s[0]], s[1..], len);
      Regroup(pre, s[0], s[1..]);
      Regroup(pre, s[0], Rewrite(s[1..], Put(len, "")));
      assert [s[0]] + s[1..] == s;
    }
  }

  lemma NoCuts(s: string)
    ensures AllBracketed(s, []) && AfterCuts(s, []) == s
  {
  }

  lemma NothingRewritten(f: Rewriter)
    ensures Rewrite([], f) == []
  {
  }

  lemma Regroup<T>(a: seq<T>, x: T, b: seq<T>)
    ensures a + [x] + b == a + ([x] + b)
  {
  }

  lemma CutFront(pre: string, s: string, n: nat, rest: seq<Range>)
    requires 0 < n <= |s| && s[0] == '<' && s[n - 1] == '>' && AllBracketed(pre + s[n..], rest)
    ensures var cuts := [Range(|pre|, |pre| + n)] + rest;
            AllBracketed(pre + s, cuts) && AfterCuts(pre + s, cuts) == AfterCuts(pre + s[n..], rest)
  {
    var i, j := |pre|, |pre| + n;
    var cuts := [Range(i, j)] + rest;
    assert (pre + s)[i] == s[0] && (pre + s)[j - 1] == s[n - 1];
    assert Delete(pre + s, i, j) == pre + s[n..] && cuts[1..] == rest;
  }

  lemma MatchRemoved(s: string, len: Matcher)
    requires 0 < len(s) <= |s|
    ensures Rewrite(s, Put(len, "")) == Rewrite(s[len(s)..], Put(len, ""))
  {
    hide Rewrite;
    RewriteParts(s, Put(len, ""));
    assert [Literal("")][1..] == [];
    assert Apply(s[..len(s)], [Literal("")]) == [];
  }
}
