/** What `stripDecorativeMarkup` deletes and what it keeps, said of the text itself. */
module Decoration {
  import opened Text
  import opened Placeholders
  import opened Patterns
  import opened Leftmost
  import opened MarkdownCleaner

  // ------------------------------------------------------------ the patterns

  /** The first n characters are a piece between these two texts, which do not overlap, and no shorter piece is. */
  predicate Delimited(s: string, open: string, close: string, n: nat) {
    && open <= s && |open| + |close| <= n && StandsAt(s, close, n - |close|)
    && forall m: nat | |open| <= m < n - |close| :: !StandsAt(s, close, m)
  }

  lemma StandsBehind(s: string, o: nat, pattern: string)
    requires o <= |s|
    ensures forall p: nat :: StandsAt(s[o..], pattern, p) <==> StandsAt(s, pattern, o + p)
  {
    forall p: nat
      ensures StandsAt(s[o..], pattern, p) <==> StandsAt(s, pattern, o + p)
    {
      if o + p + |pattern| <= |s| {
        assert s[o..][p..p + |pattern|] == s[o + p..o + p + |pattern|];
      }
    }
  }

  lemma DelimitedIff(s: string, open: string, close: string, n: nat)
    requires open <= s && close != []
    ensures Delimited(s, open, close, n) <==>
            Find(s[|open|..], Exactly(close)).Some?
            && n == |open| + Find(s[|open|..], Exactly(close)).value + |close|
  {
    hide Find, StandsAt, Exactly;
    var t, o, c := s[|open|..], |open|, |close|;
    StandsBehind(s, o, close);
    if Find(t, Exactly(close)).Some? {
      FindText(t, close, Find(t, Exactly(close)).value);
    }
    if o + c <= n {
      FindText(t, close, n - o - c);
      assert o + (n - o - c) == n - c;
      forall m: nat | o <= m < n - c
        ensures StandsAt(s, close, m) <==> StandsAt(t, close, m - o)
      {
        assert o + (m - o) == m;
      }
    }
  }

  /** A figure: from its opening tag to the first closing tag. */
  lemma FigureIff(s: string, n: nat)
    requires n > 0
    ensures FigureLen(s) == n <==> Delimited(s, "<figure>", "</figure>", n)
  {
    hide Find;
    if FIGURE_OPEN <= s { DelimitedIff(s, FIGURE_OPEN, FIGURE_CLOSE, n); }
  }

  /** A fenced block: from three backticks to the next three. */
  lemma FenceIff(s: string, n: nat)
    requires n > 0
    ensures FenceLen(s) == n <==> Delimited(s, "```", "```", n)
  {
    hide Find;
    if TICKS <= s { DelimitedIff(s, TICKS, TICKS, n); }
  }

  lemma PlainCons(c: char, s: string)
    ensures Plain([c] + s) <==> c != '`' && c != '\n' && Plain(s)
  {
    assert ([c] + s)[0] == c && forall i | 0 <= i < |s| :: ([c] + s)[i + 1] == s[i];
  }

  lemma {:induction false} ToTickIff(s: string, k: nat)
    ensures ToTick(s) == Some(k) <==> k < |s| && s[k] == '`' && Plain(s[..k])
  {
    if s != [] && s[0] != '\n' && s[0] != '`' && k > 0 {
      ToTickIff(s[1..], k - 1);
      if k < |s| {
        assert s[..k] == [s[0]] + s[1..][..k - 1];
        PlainCons(s[0], s[1..][..k - 1]);
      }
    } else if s != [] && k > 0 && k <= |s| {
      assert s[..k][0] == s[0];
    }
  }

  /** An inline span: from a backtick to the next one on its line. */
  lemma InlineIff(s: string, n: nat)
    requires n > 0
    ensures InlineLen(s) == n <==> 2 <= n <= |s| && s[0] == '`' && s[n - 1] == '`' && Plain(s[1..n - 1])
  {
    hide ToTick;
    if n >= 2 && s != [] {
      ToTickIff(s[1..], n - 2);
      if n <= |s| { assert s[1..][..n - 2] == s[1..n - 1]; }
    }
    if n == 1 && s != [] && s[0] == '`' && ToTick(s[1..]).Some? {
      assert InlineLen(s) >= 2;
    }
  }

  predicate NameChar(c: char) {
    'a' <= c <= 'z' || c == '-'
  }

  predicate IsName(s: string) {
    s != [] && forall i | 0 <= i < |s| :: NameChar(s[i])
  }

  lemma {:induction false} NameRunIs(name: string, rest: string)
    requires (forall i | 0 <= i < |name| :: NameChar(name[i])) && (rest != [] ==> !NameChar(rest[0]))
    ensures NameRun(name + rest) == |name|
  {
    if name == [] {
      assert name + rest == rest;
    } else {
      assert (name + rest)[1..] == name[1..] + rest;
      NameRunIs(name[1..], rest);
    }
  }

  /** The first n characters close a component: `/>`, or a closing tag with a name. */
  predicate Closes(s: string, n: nat) {
    && n <= |s|
    && (s[..n] == "/>" || (n >= 8 && s[..6] == "</app-" && IsName(s[6..n - 1]) && s[n - 1] == '>'))
  }

  lemma {:induction false} NameRunStops(s: string)
    ensures var n := NameRun(s);
            (forall i | 0 <= i < n :: NameChar(s[i])) && (n < |s| ==> !NameChar(s[n]))
  {
    if s != [] && NameChar(s[0]) { NameRunStops(s[1..]); }
  }

  lemma ClosesIff(s: string, n: nat)
    requires n > 0
    ensures ComponentEnd(s) == n <==> Closes(s, n)
  {
    hide NameRun;
    assert "/>" <= s ==> s[0] == '/' && s[..2] == "/>";
    assert COMPONENT_CLOSE <= s ==> s[0] == '<';
    if COMPONENT_CLOSE <= s {
      var run := NameRun(s[6..]);
      NameRunStops(s[6..]);
      if n >= 8 && n <= |s| && IsName(s[6..n - 1]) && s[n - 1] == '>' {
        assert s[6..] == s[6..n - 1] + s[n - 1..];
        NameRunIs(s[6..n - 1], s[n - 1..]);
      }
      if run > 0 && run + 6 < |s| {
        assert IsName(s[6..run + 6]) by { assert forall i | 0 <= i < run :: s[6..run + 6][i] == s[6..][i]; }
      }
    }
  }

  /** Before k nothing closes a component. */
  ghost predicate StillOpen(s: string, k: nat) {
    forall p: nat, m: nat | 6 <= p < k && p <= |s| :: !Closes(s[p..], m)
  }

  /** A component: a name behind its opening, and then up to the first place that closes one. */
  ghost predicate IsComponent(s: string, n: nat) {
    && |s| > 5 && s[..5] == "<app-" && NameChar(s[5])
    && exists k: nat :: 6 <= k < n <= |s| && Closes(s[k..], n - k) && StillOpen(s, k)
  }

  lemma ComponentIff(s: string, n: nat)
    requires n > 0
    ensures ComponentLen(s) == n <==> IsComponent(s, n)
  {
    hide Find, NameRun, ComponentEnd, Closes, StillOpen;
    if COMPONENT_OPEN <= s && |s| > 5 && NameChar(s[5]) {
      if IsComponent(s, n) {
        var k: nat :| 6 <= k < n && Closes(s[k..], n - k) && StillOpen(s, k);
        ComponentFound(s, k, n);
      }
      ComponentCloses(s);
    } else if COMPONENT_OPEN <= s {
      NameRunStops(s[5..]);
      assert NameRun(s[5..]) == 0;
    }
  }

  lemma ComponentFound(s: string, k: nat, n: nat)
    requires COMPONENT_OPEN <= s && |s| > 5 && NameChar(s[5]) && 6 <= k < n <= |s|
    requires Closes(s[k..], n - k) && StillOpen(s, k)
    ensures ComponentLen(s) == n
  {
    hide Find, NameRun, ComponentEnd, Closes;
    var from := 5 + NameRun(s[5..]);
    BehindName(s);
    NamesDoNotClose(s, from);
    EndsAreCloses(s, from);
    FindIsFirst(s[from..], ComponentEnd);
    FoundMatches(s[from..], ComponentEnd);
    assert SomethingCloses(s, k);
    assert MatchAt(s[from..], ComponentEnd, k - from);
    var j := Find(s[from..], ComponentEnd).value;
    assert from + j - from == j && SomethingCloses(s, from + j);
    assert s[from..][k - from..] == s[k..];
    ClosesIff(s[k..], n - k);
  }

  lemma ComponentCloses(s: string)
    requires COMPONENT_OPEN <= s && |s| > 5 && NameChar(s[5])
    ensures ComponentLen(s) > 0 ==> IsComponent(s, ComponentLen(s))
  {
    hide Find, NameRun, ComponentEnd, Closes, StillOpen;
    var from := 5 + NameRun(s[5..]);
    BehindName(s);
    if Find(s[from..], ComponentEnd).Some? {
      var k := from + Find(s[from..], ComponentEnd).value;
      OpenUntilFound(s, from, k);
      assert s[from..][k - from..] == s[k..];
      ClosesIff(s[k..], ComponentEnd(s[k..]));
    }
  }

  lemma BehindName(s: string)
    requires |s| > 5 && NameChar(s[5])
    ensures var from := 5 + NameRun(s[5..]);
            5 < from <= |s| && forall i | 5 <= i < from :: NameChar(s[i])
  {
    NameRunStops(s[5..]);
    assert NameChar(s[5..][0]);
    assert forall i | 5 <= i < 5 + NameRun(s[5..]) :: s[i] == s[5..][i - 5];
  }

  lemma OpenUntilFound(s: string, from: nat, k: nat)
    requires 5 < from <= k <= |s| && forall i | 5 <= i < from :: NameChar(s[i])
    requires Find(s[from..], ComponentEnd) == Some(k - from)
    ensures StillOpen(s, k)
  {
    hide Find, ComponentEnd, Closes;
    NamesDoNotClose(s, from);
    EndsAreCloses(s, from);
    FindIsFirst(s[from..], ComponentEnd);
    forall p: nat, m: nat | 6 <= p < k && p <= |s|
      ensures !Closes(s[p..], m)
    {
      if p >= from {
        assert !MatchAt(s[from..], ComponentEnd, p - from);
        assert !SomethingCloses(s, p);
      }
    }
  }

  lemma CloseStarts(s: string, m: nat)
    requires Closes(s, m)
    ensures s != [] && !NameChar(s[0])
  {
    assert s[..m][0] == s[0];
    assert m >= 8 ==> s[..6][0] == s[0];
  }

  lemma NamesDoNotClose(s: string, from: nat)
    requires 5 < from <= |s| && forall i | 5 <= i < from :: NameChar(s[i])
    ensures forall p: nat, m: nat | 6 <= p < from :: !Closes(s[p..], m)
  {
    forall p: nat, m: nat | 6 <= p < from
      ensures !Closes(s[p..], m)
    {
      if Closes(s[p..], m) { CloseStarts(s[p..], m); }
    }
  }

  ghost predicate SomethingCloses(s: string, p: nat)
    requires p <= |s|
  {
    exists m: nat :: Closes(s[p..], m)
  }

  lemma EndIsClose(s: string, from: nat, p: nat)
    requires from <= p <= |s|
    ensures MatchAt(s[from..], ComponentEnd, p - from) <==> SomethingCloses(s, p)
  {
    hide Closes;
    var t, e := s[p..], ComponentEnd(s[p..]);
    assert s[from..][p - from..] == t && |s[from..]| - (p - from) == |t|;
    if e > 0 { ClosesIff(t, e); }
    if SomethingCloses(s, p) {
      var m: nat :| Closes(t, m);
      CloseNotEmpty(t, m);
      ClosesIff(t, m);
    }
    EndFits(t);
    hide ComponentEnd;
  }

  lemma EndFits(s: string)
    ensures ComponentEnd(s) <= |s|
  {
  }

  lemma EndsAreCloses(s: string, from: nat)
    requires from <= |s|
    ensures forall p: nat | from <= p <= |s| ::
              MatchAt(s[from..], ComponentEnd, p - from) <==> SomethingCloses(s, p)
  {
    hide ComponentEnd, MatchAt, SomethingCloses;
    forall p: nat | from <= p <= |s|
      ensures MatchAt(s[from..], ComponentEnd, p - from) <==> SomethingCloses(s, p)
    {
      EndIsClose(s, from, p);
    }
  }

  // ------------------------------------------------------------ the deletions

  function Nothing(n: nat): (r: seq<string>)
    ensures |r| == n
  {
    seq(n, _ => "")
  }

  /** All the figures go, then all the components there are then, and nothing else. */
  lemma DecorationIs(s: string) returns (figures: seq<Range>, components: seq<Range>)
    ensures AllMatches(s, FigureLen, figures, 0)
    ensures var t := Filled(s, 0, figures, Nothing(|figures|));
            && AllMatches(t, ComponentLen, components, 0)
            && Undecorated(s) == Filled(t, 0, components, Nothing(|components|))
  {
    hide Rewrite, AllMatches, Filled, FigureLen, ComponentLen, Nothing;
    figures := RemovalIs(s, FigureLen);
    components := RemovalIs(Rewrite(s, Put(FigureLen, "")), ComponentLen);
  }

  lemma RemovalIs(s: string, len: Matcher) returns (spans: seq<Range>)
    ensures AllMatches(s, len, spans, 0)
    ensures Rewrite(s, Put(len, "")) == Filled(s, 0, spans, Nothing(|spans|))
  {
    hide Rewrite, Filled;
    var puts;
    spans, puts := RewriteIs(s, Put(len, ""));
    SameMatches(s, len, spans);
    forall i | 0 <= i < |spans|
      ensures puts[i] == ""
    {
      NothingPut(s, len, spans[i]);
    }
    assert puts == Nothing(|spans|);
  }

  lemma NothingPut(s: string, len: Matcher, r: Range)
    ensures PutAt(s, Put(len, ""), r) == ""
  {
    assert [Literal("")][1..] == [];
    assert forall t :: Apply(t, []) == [];
    assert forall t :: Apply(t, [Literal("")]) == "" + Apply(t, []);
  }

  lemma SameMatches(s: string, len: Matcher, spans: seq<Range>)
    requires AllMatches(s, LenOf(Put(len, "")), spans, 0)
    ensures AllMatches(s, len, spans, 0)
  {
    assert forall t: string :: LenOf(Put(len, ""))(t) == len(t);
  }

  // ------------------------------------------------------------ whole texts

  lemma WhereTheyStart()
    ensures StartsWith(FigureLen, '<') && StartsWith(ComponentLen, '<')
    ensures StartsWith(FenceLen, '`') && StartsWith(InlineLen, '`')
    ensures RewritesFrom(Put(FigureLen, ""), '<') && RewritesFrom(Put(ComponentLen, ""), '<')
  {
    assert FIGURE_OPEN[0] == '<' && COMPONENT_OPEN[0] == '<' && TICKS[0] == '`';
  }

  lemma UndecoratedSkips(a: string, s: string)
    requires '<' !in a
    ensures Undecorated(a + s) == a + Undecorated(s)
  {
    hide Rewrite, RewritesFrom, FigureLen, ComponentLen;
    WhereTheyStart();
    RewriteSkips(a, s, Put(FigureLen, ""), '<');
    RewriteSkips(a, Rewrite(s, Put(FigureLen, "")), Put(ComponentLen, ""), '<');
  }

  /** What holds no backtick and no mark is not lifted. */
  lemma CodeBehind(w: string, b: string)
    requires '`' !in w && MARK !in w
    ensures WithoutCode(w + b) == w + WithoutCode(b) && Extracted(w + b) == Extracted(b)
  {
    hide Lift, Lifted, FenceLen, InlineLen, StartsWith;
    WhereTheyStart();
    WithoutConcat(w, b, MARK);
    var s := Sanitized(b);
    LiftSkipsOver(MARK, w, s, FenceLen, '`', 0);
    LiftSkipsOver(MARK, w, Lift(MARK, s, FenceLen, 0), InlineLen, '`', |Lifted(s, FenceLen)|);
  }

  /** Text that starts neither markup nor code is kept. */
  lemma PlainTextStays(a: string, b: string)
    requires '<' !in a && '`' !in a && MARK !in a
    ensures Stripped(a + b) == a + Stripped(b)
  {
    hide WithoutCode, Undecorated, Extracted, Lookup, Restore;
    CodeBehind(a, b);
    UndecoratedSkips(a, WithoutCode(b));
    RestoreSkips(MARK, a, Undecorated(WithoutCode(b)), Lookup(Extracted(b)));
  }

  function Figure(x: string): string {
    "<figure>" + x + "</figure>"
  }

  /** A component with a closing tag. */
  function Component(name: string, x: string, closing: string): string {
    "<app-" + name + x + "</app-" + closing + ">"
  }

  /** A component that closes itself. */
  function Closed(name: string, x: string): string {
    "<app-" + name + x + "/>"
  }

  lemma NoneStands(x: string, pattern: string, w: string, o: nat, m: nat)
    requires o + |x| <= |w| && w[o..o + |x|] == x && o <= m < o + |x|
    requires pattern != [] && pattern[0] !in x
    ensures !StandsAt(w, pattern, m)
  {
    hide StandsAt;
    assert w[m] == x[m - o];
    if StandsAt(w, pattern, m) { StandsFirst(w, pattern, m); }
  }

  lemma StandsFirst(s: string, pattern: string, p: nat)
    requires pattern != [] && StandsAt(s, pattern, p)
    ensures p < |s| && s[p] == pattern[0]
  {
    assert s[p..p + |pattern|][0] == s[p];
  }

  lemma FigureParts(x: string, t: string)
    ensures var w := Figure(x) + t;
            && FIGURE_OPEN <= w && w[8..8 + |x|] == x && w[8 + |x|..17 + |x|] == FIGURE_CLOSE && |Figure(x)| == 17 + |x|
  {
  }

  lemma FigureAtFront(x: string, t: string)
    requires '<' !in x
    ensures FigureLen(Figure(x) + t) == |Figure(x)|
  {
    hide FigureLen, StandsAt, Figure;
    var w, n := Figure(x) + t, |Figure(x)|;
    FigureParts(x, t);
    forall m: nat | 8 <= m < n - 9
      ensures !StandsAt(w, FIGURE_CLOSE, m)
    {
      NoneStands(x, FIGURE_CLOSE, w, 8, m);
    }
    assert StandsAt(w, FIGURE_CLOSE, n - 9) by { StandsThere(w, FIGURE_CLOSE, n - 9); }
    FigureIff(w, n);
  }

  lemma StandsThere(s: string, pattern: string, p: nat)
    requires p + |pattern| <= |s| && s[p..p + |pattern|] == pattern
    ensures StandsAt(s, pattern, p)
  {
  }

  lemma FrontGoes(w: string, b: string)
    requires '`' !in w && MARK !in w && forall t :: Undecorated(w + t) == Undecorated(t)
    ensures Stripped(w + b) == Stripped(b)
  {
    hide WithoutCode, Undecorated, Extracted, Lookup, Restore;
    CodeBehind(w, b);
  }

  /** A figure goes, with what is in it. */
  lemma FigureGoes(x: string, b: string)
    requires '<' !in x && '`' !in x && MARK !in x
    ensures Stripped(Figure(x) + b) == Stripped(b)
  {
    hide Undecorated, Stripped;
    forall t
      ensures Undecorated(Figure(x) + t) == Undecorated(t)
    {
      FigureRemoved(x, t);
    }
    NoTicksInFigure(x);
    FrontGoes(Figure(x), b);
  }

  lemma NoTicksInFigure(x: string)
    requires '`' !in x && MARK !in x
    ensures '`' !in Figure(x) && MARK !in Figure(x)
  {
  }

  lemma FigureRemoved(x: string, t: string)
    requires '<' !in x
    ensures Undecorated(Figure(x) + t) == Undecorated(t)
  {
    hide Rewrite, FigureLen, ComponentLen;
    FigureAtFront(x, t);
    PutAtFront(Figure(x), t, FigureLen, "");
    assert "" + Rewrite(t, Put(FigureLen, "")) == Rewrite(t, Put(FigureLen, ""));
  }

  // ------------------------------------------------------------- components

  lemma ComponentAtFront(head: string, close: string, t: string)
    requires |head| > 5 && head[..5] == "<app-" && NameChar(head[5])
    requires forall i | 6 <= i < |head| :: head[i] != '<' && head[i] != '/'
    requires forall rest :: Closes(close + rest, |close|)
    ensures ComponentLen(head + close + t) == |head + close|
  {
    hide ComponentLen, Closes;
    var w, k := head + close + t, |head|;
    assert w[k..] == close + t && w[..5] == "<app-" && w[5] == head[5];
    forall p: nat, m: nat | 6 <= p < k && p <= |w|
      ensures !Closes(w[p..], m)
    {
      assert w[p..][0] == head[p];
      if Closes(w[p..], m) { CloseStartsSo(w[p..], m); }
    }
    assert Closes(close + t, |close|);
    CloseNotEmpty(close + t, |close|);
    ComponentIff(w, |head + close|);
  }

  lemma CloseStartsSo(s: string, m: nat)
    requires Closes(s, m)
    ensures s != [] && (s[0] == '<' || s[0] == '/')
  {
    assert s[..m][0] == s[0];
    assert m >= 8 ==> s[..6][0] == s[0];
  }

  lemma CloseNotEmpty(s: string, m: nat)
    requires Closes(s, m)
    ensures m > 0
  {
  }

  /** The figures' pattern finds nothing in a component. */
  lemma NoFigureIn(w: string, t: string)
    requires w != [] && forall i | 0 <= i < |w| && w[i] == '<' :: i + 1 < |w| && w[i + 1] != 'f'
    ensures Rewrite(w + t, Put(FigureLen, "")) == w + Rewrite(t, Put(FigureLen, ""))
  {
    forall i | 0 <= i < |w|
      ensures !Matches(w[i..] + t, Put(FigureLen, ""))
    {
      NoFigureAt(w[i..] + t);
    }
    RewritePasses(w, t, Put(FigureLen, ""));
  }

  lemma NoFigureAt(s: string)
    requires s != [] && (s[0] == '<' ==> |s| > 1 && s[1] != 'f')
    ensures FigureLen(s) == 0
  {
    if FIGURE_OPEN <= s { FigureOpens(s); }
  }

  lemma FigureOpens(s: string)
    requires FIGURE_OPEN <= s
    ensures |s| > 1 && s[0] == '<' && s[1] == 'f'
  {
    assert s[0] == FIGURE_OPEN[0] && s[1] == FIGURE_OPEN[1];
  }

  lemma ComponentRemoved(head: string, close: string, t: string)
    requires |head| > 5 && head[..5] == "<app-" && NameChar(head[5])
    requires forall i | 6 <= i < |head| :: head[i] != '<' && head[i] != '/'
    requires forall rest :: Closes(close + rest, |close|)
    requires forall i | 0 <= i < |close| && close[i] == '<' :: i + 1 < |close| && close[i + 1] != 'f'
    ensures Undecorated((head + close) + t) == Undecorated(t)
  {
    hide Rewrite, FigureLen, ComponentLen, Closes;
    var w := head + close;
    forall i | 0 <= i < |w| && w[i] == '<'
      ensures i + 1 < |w| && w[i + 1] != 'f'
    {
      if i < |head| { HeadOpensOnce(head, i); } else { assert close[i - |head|] == '<'; }
    }
    NoFigureIn(w, t);
    var t' := Rewrite(t, Put(FigureLen, ""));
    ComponentAtFront(head, close, t');
    PutAtFront(w, t', ComponentLen, "");
    assert "" + Rewrite(t', Put(ComponentLen, "")) == Rewrite(t', Put(ComponentLen, ""));
  }

  lemma HeadOpensOnce(head: string, i: nat)
    requires |head| > 5 && head[..5] == "<app-" && NameChar(head[5]) && i < |head| && head[i] == '<'
    requires forall i | 6 <= i < |head| :: head[i] != '<' && head[i] != '/'
    ensures i == 0 && head[1] == 'a'
  {
    assert forall k | 0 <= k < 5 :: head[k] == head[..5][k];
  }

  /** A component with a closing tag goes, whatever its name and what stands between. */
  lemma ComponentGoes(name: string, x: string, closing: string, b: string)
    requires IsName(name) && IsName(closing)
    requires '<' !in x && '/' !in x && '`' !in x && MARK !in x
    ensures Stripped(Component(name, x, closing) + b) == Stripped(b)
  {
    hide Undecorated, Stripped, Closes;
    var head, close := "<app-" + name + x, "</app-" + closing + ">";
    HeadShape(name, x);
    ClosingTag(closing);
    assert head + close == Component(name, x, closing);
    forall t
      ensures Undecorated(Component(name, x, closing) + t) == Undecorated(t)
    {
      ComponentRemoved(head, close, t);
    }
    FrontGoes(Component(name, x, closing), b);
  }

  /** A component that closes itself goes too. */
  lemma ClosedComponentGoes(name: string, x: string, b: string)
    requires IsName(name) && '<' !in x && '/' !in x && '`' !in x && MARK !in x
    ensures Stripped(Closed(name, x) + b) == Stripped(b)
  {
    hide Undecorated, Stripped, Closes;
    var head, close := "<app-" + name + x, "/>";
    HeadShape(name, x);
    SlashCloses();
    assert head + close == Closed(name, x);
    forall t
      ensures Undecorated(Closed(name, x) + t) == Undecorated(t)
    {
      ComponentRemoved(head, close, t);
    }
    FrontGoes(Closed(name, x), b);
  }

  lemma HeadShape(name: string, x: string)
    requires IsName(name) && '<' !in x && '/' !in x && '`' !in x && MARK !in x
    ensures var head := "<app-" + name + x;
            && |head| > 5 && head[..5] == "<app-" && NameChar(head[5])
            && (forall i | 6 <= i < |head| :: head[i] != '<' && head[i] != '/')
            && '`' !in head && MARK !in head
  {
    NameHasNoTicks(name);
  }

  lemma NameHasNoTicks(name: string)
    requires IsName(name)
    ensures '`' !in name && MARK !in name && '<' !in name && '/' !in name
  {
  }

  lemma ClosingTag(closing: string)
    requires IsName(closing)
    ensures var close := "</app-" + closing + ">";
            && (forall rest :: Closes(close + rest, |close|)) && '`' !in close && MARK !in close
            && (forall i | 0 <= i < |close| && close[i] == '<' :: i + 1 < |close| && close[i + 1] != 'f')
  {
    NameHasNoTicks(closing);
    var close := "</app-" + closing + ">";
    forall rest
      ensures Closes(close + rest, |close|)
    {
      var s, n := close + rest, |close|;
      assert s[..6] == "</app-" && s[6..n - 1] == closing && s[n - 1] == '>';
    }
    assert forall i | 0 <= i < |close| && close[i] == '<' :: i == 0;
    assert close[1] == '/';
  }

  lemma SlashCloses()
    ensures forall rest :: Closes("/>" + rest, 2)
  {
    forall rest
      ensures Closes("/>" + rest, 2)
    {
      assert ("/>" + rest)[..2] == "/>";
    }
  }

  // ------------------------------------------------------------ what is kept

  /** A text in which, outside code, no figure and no component starts is kept whole, exactly if no inline span
      reaches around a fence. */
  lemma NothingToStrip(text: string)
    requires forall p: nat :: !StandsAt(WithoutCode(text), "<figure>", p)
    requires forall p: nat :: !StandsAt(WithoutCode(text), "<app-", p)
    ensures Stripped(text) == Sanitized(text) <==> !EnclosesFence(text)
  {
    var s := WithoutCode(text);
    hide WithoutCode, EnclosesFence, Restored, StandsAt, Rewrite;
    NoneRemoved(s, FigureLen, FIGURE_OPEN);
    NoneRemoved(s, ComponentLen, COMPONENT_OPEN);
    RoundTripIff(text);
  }

  lemma NoneRemoved(s: string, len: Matcher, open: string)
    requires forall p: nat :: !StandsAt(s, open, p)
    requires forall t: string | !(open <= t) :: len(t) == 0
    ensures Rewrite(s, Put(len, "")) == s
  {
    hide Rewrite;
    forall i | 0 <= i < |s|
      ensures !Matches(s[i..] + [], Put(len, ""))
    {
      assert s[i..] + [] == s[i..];
      if open <= s[i..] { StandsThere(s, open, i); }
    }
    RewritePasses(s, [], Put(len, ""));
    RewriteParts([], Put(len, ""));
    assert s + [] == s;
  }

  lemma {:induction false} RemovalKeepsOut(s: string, len: Matcher, c: char)
    requires c !in s
    ensures c !in Rewrite(s, Put(len, ""))
    decreases |s|
  {
    hide Rewrite;
    RewriteParts(s, Put(len, ""));
    if s != [] {
      if 0 < len(s) <= |s| {
        MatchRemoved(s, len);
        RemovalKeepsOut(s[len(s)..], len, c);
      } else {
        RemovalKeepsOut(s[1..], len, c);
      }
    }
  }

  /** One code span, without another backtick around: whatever it holds, figures and components included, is kept. */
  lemma CodeStays(a: string, code: string, b: string)
    requires '<' !in a && '`' !in a && '`' !in b && MARK !in a + code + b
    requires InlineSpan(code) || FencedBlock(code)
    ensures Stripped(a + (code + b)) == a + (code + Stripped(b))
  {
    PlainTextStays(a, code + b);
    NoMarks(code, b);
    CodeAtFront(code, b);
    hide Stripped, FencedBlock, InlineSpan;
  }

  /** Backticks around a stretch of one line. */
  predicate InlineSpan(code: string) {
    |code| >= 2 && code[0] == '`' && code[|code| - 1] == '`' && Plain(code[1..|code| - 1])
  }

  predicate FencedBlock(code: string) {
    Delimited(code, "```", "```", |code|)
  }

  lemma NoMarks(code: string, b: string)
    requires MARK !in code && MARK !in b
    ensures Sanitized(code + b) == code + b && Sanitized(b) == b && Sanitized(code) == code
  {
    WithoutConcat(code, b, MARK);
  }

  lemma LiftsNothing(b: string)
    requires '`' !in b
    ensures forall next :: Lift(MARK, b, FenceLen, next) == b && Lift(MARK, b, InlineLen, next) == b
    ensures Lifted(b, FenceLen) == [] && Lifted(b, InlineLen) == []
  {
    hide Lift, Lifted, FenceLen, InlineLen, StartsWith;
    WhereTheyStart();
    assert b + [] == b;
    LiftNothing(MARK, FenceLen);
    LiftNothing(MARK, InlineLen);
    forall next
      ensures Lift(MARK, b, FenceLen, next) == b && Lift(MARK, b, InlineLen, next) == b
    {
      LiftSkipsOver(MARK, b, [], FenceLen, '`', next);
      LiftSkipsOver(MARK, b, [], InlineLen, '`', next);
    }
    LiftSkipsOver(MARK, b, [], FenceLen, '`', 0);
    LiftSkipsOver(MARK, b, [], InlineLen, '`', 0);
  }

  lemma FenceLifts(code: string, b: string)
    requires FencedBlock(code) && '`' !in b && MARK !in code && MARK !in b
    ensures WithoutCode(code + b) == Shown(MARK, Token(0)) + b && Extracted(code + b) == [code]
  {
    hide Lift, Lifted, FenceLen, InlineLen, Delimited, StartsWith;
    NoMarks(code, b);
    DelimitedOnly(code, "```", "```", b);
    FenceIff(code + b, |code|);
    OpensWithTicks(code);
    LiftAt(MARK, code, b, FenceLen, 0);
    LiftsNothing(b);
    WhereTheyStart();
    TokenIsPlain(0);
    LiftSkipsOver(MARK, Shown(MARK, Token(0)), b, InlineLen, '`', 1);
    assert [code] + [] == [code];
  }

  lemma OpensWithTicks(code: string)
    requires Delimited(code, "```", "```", |code|)
    ensures code != []
  {
  }

  /** A piece that is delimited is so with anything behind it. */
  lemma DelimitedOnly(s: string, open: string, close: string, rest: string)
    requires Delimited(s, open, close, |s|) && close != []
    ensures Delimited(s + rest, open, close, |s|)
  {
    var n, c := |s|, |close|;
    assert (s + rest)[n - c..n] == s[n - c..n];
    forall m: nat | |open| <= m < n - c
      ensures !StandsAt(s + rest, close, m)
    {
      assert !StandsAt(s, close, m);
      assert (s + rest)[m..m + c] == s[m..m + c];
    }
  }

  lemma InlineLifts(code: string, b: string)
    requires InlineSpan(code) && '`' !in b && MARK !in code && MARK !in b
    ensures WithoutCode(code + b) == Shown(MARK, Token(0)) + b && Extracted(code + b) == [code]
  {
    hide Lift, Lifted, FenceLen, InlineLen, StartsWith;
    NoMarks(code, b);
    var s := code + b;
    assert s[1..|code| - 1] == code[1..|code| - 1];
    InlineIff(s, |code|);
    NoFenceInSpan(code, b);
    LiftPassesOver(MARK, code, b, FenceLen, 0);
    LiftAt(MARK, code, b, InlineLen, 0);
    LiftsNothing(b);
    assert [code] + [] == [code] && [] + [code] == [code];
  }

  lemma NoFenceInSpan(code: string, b: string)
    requires InlineSpan(code) && '`' !in b
    ensures forall i | 0 <= i < |code| :: FenceLen(code[i..] + b) == 0
  {
    forall i | 0 <= i < |code|
      ensures FenceLen(code[i..] + b) == 0
    {
      var s := code[i..] + b;
      if TICKS <= s {
        ThreeTicks(s);
        OnlyEndsAreTicks(code, b, i);
      }
    }
  }

  lemma ThreeTicks(s: string)
    requires TICKS <= s
    ensures |s| >= 3 && s[0] == s[1] == s[2] == '`'
  {
    assert forall k | 0 <= k < 3 :: s[k] == TICKS[k];
  }

  lemma OnlyEndsAreTicks(code: string, b: string, i: nat)
    requires InlineSpan(code) && '`' !in b && i < |code|
    ensures var s := code[i..] + b; !(|s| >= 3 && s[0] == s[1] == s[2] == '`')
  {
    var s, n := code[i..] + b, |code|;
    forall k | 0 < k < n - 1
      ensures code[k] != '`'
    {
      assert code[1..n - 1][k - 1] == code[k];
    }
    forall k | 0 <= k < |b|
      ensures s[n - i + k] == b[k] != '`'
    {
    }
    assert forall k | 0 <= k < n - i :: s[k] == code[i + k];
    if |s| >= 3 && i + 2 >= n {
      assert s[2] == b[i + 2 - n];
    }
  }

  lemma CodeAtFront(code: string, b: string)
    requires '`' !in b && MARK !in code && MARK !in b && (InlineSpan(code) || FencedBlock(code))
    ensures Stripped(code + b) == code + Stripped(b)
  {
    hide WithoutCode, Extracted, Lookup, Restore, FencedBlock, InlineSpan, Rewrite, Shown;
    if FencedBlock(code) { FenceLifts(code, b); } else { InlineLifts(code, b); }
    TokenIsPlain(0);
    NoBracketInToken();
    UndecoratedSkips(Shown(MARK, Token(0)), b);
    var left := Undecorated(b);
    RestoreToken(MARK, 0, left, Lookup([code]));
    RemovalKeepsOut(b, FigureLen, MARK);
    RemovalKeepsOut(Rewrite(b, Put(FigureLen, "")), ComponentLen, MARK);
    RestoreNothing(MARK, left, Lookup([code]));
    NoCodeIn(b);
    RestoreNothing(MARK, left, Lookup([]));
    LookupFirst(code);
  }

  lemma NoBracketInToken()
    ensures '<' !in Shown(MARK, Token(0))
  {
  }

  lemma LookupFirst(code: string)
    ensures Lookup([code])(0) == code
  {
  }

  lemma NoCodeIn(b: string)
    requires '`' !in b && MARK !in b
    ensures WithoutCode(b) == b && Extracted(b) == []
  {
    hide Lift, Lifted;
    LiftsNothing(b);
  }
}
