/** What a table cell is rendered as, part by part: any row of texts, emphasis, breaks, other tags, links, code and
    entities. */
module CellParts {
  import opened Text
  import opened Lines
  import opened Placeholders
  import opened Patterns
  import opened HtmlCell
  import opened CrossedLink
  import CacheKeys
  import Entities

  datatype Part =
    | Words(text: string)
    | Emphasis(strong: bool, text: string)
    | Break(space: string, slash: bool)
    | OtherTag(inside: string)
    | Anchor(address: string, text: string)
    | Code(text: string)
    | Entity(which: nat)

  /** Text without markup. */
  predicate NoMarkup(s: string) {
    '<' !in s && '&' !in s && MARK !in s
  }

  /** No closing tag in it, so that the next one ends it. */
  predicate NoClose(x: string) {
    forall i | 0 <= i < |x| :: !MatchesAt(x + CODE_CLOSE, i, CODE_CLOSE)
  }

  predicate ValidPart(p: Part) {
    match p
    case Words(t) => NoMarkup(t)
    case Emphasis(_, t) => NoMarkup(t)
    case Break(space, _) => Blank(space)
    case OtherTag(t) =>
      && t != [] && NoMarkup(t) && '>' !in t && LowerAscii(t[0]) != 'a' && LowerAscii(t[0]) != 'b'
      && LowerAscii(t[0]) != 'c' && !MatchesAt("<" + t + ">", 0, "<strong>")
    case Anchor(u, t) => NoMarkup(u) && NoMarkup(t) && '"' !in u && '>' !in u
    case Code(t) => NoClose(t) && MARK !in t
    case Entity(k) => k < 7 && k != 5
  }

  predicate ValidParts(ps: seq<Part>) {
    forall i | 0 <= i < |ps| :: ValidPart(ps[i])
  }

  function EmphasisName(strong: bool): string {
    if strong then "strong" else "b"
  }

  /** A part as it stands in the cell. */
  function Source(p: Part): string
    requires ValidPart(p)
  {
    match p
    case Words(t) => t
    case Emphasis(strong, t) => "<" + EmphasisName(strong) + ">" + t + "</" + EmphasisName(strong) + ">"
    case Break(space, slash) => "<br" + space + (if slash then "/>" else ">")
    case OtherTag(t) => "<" + t + ">"
    case Anchor(u, t) => "<a href=\"" + u + "\">" + t + "</a>"
    case Code(t) => CodeTag(t)
    case Entity(k) => Entities.Entity(k).0
  }

  /** And in the end, with token n for a span of code. */
  function Result(p: Part, n: nat): string
    requires ValidPart(p)
  {
    match p
    case Words(t) => t
    case Emphasis(_, t) => "**" + t + "**"
    case Break(_, _) => " "
    case OtherTag(_) => ""
    case Anchor(u, t) => "[" + t + "](" + u + ")"
    case Code(_) => Tok(n)
    case Entity(k) => [Entities.Entity(k).1]
  }

  /** The step that turns the one into the other. */
  function StepOf(p: Part): nat {
    match p
    case Words(_) => 0
    case Code(_) => 0
    case Anchor(_, _) => 1
    case Emphasis(_, _) => 2
    case Break(_, _) => 3
    case OtherTag(_) => 4
    case Entity(_) => 5
  }

  /** A part before step k. */
  function Form(p: Part, k: nat, n: nat): string
    requires ValidPart(p)
  {
    if k <= StepOf(p) then Source(p) else Result(p, n)
  }

  function Next(p: Part, n: nat): nat {
    if p.Code? then n + 1 else n
  }

  /** The cell before step k, its spans numbered from n on. */
  function TextAt(ps: seq<Part>, k: nat, n: nat): string
    requires ValidParts(ps)
  {
    if ps == [] then [] else Form(ps[0], k, n) + TextAt(ps[1..], k, Next(ps[0], n))
  }

  function Html(ps: seq<Part>): string
    requires ValidParts(ps)
  {
    TextAt(ps, 0, 0)
  }

  function CodesOf(ps: seq<Part>): seq<string> {
    if ps == [] then [] else (if ps[0].Code? then [ps[0].text] else []) + CodesOf(ps[1..])
  }

  // ------------------------------------------------- nothing starts in a part

  /** Every bracket in it is followed by something that is not this letter. */
  predicate NoStart(w: string, c: char) {
    forall i | 0 <= i < |w| && w[i] == '<' :: i + 1 < |w| && LowerAscii(w[i + 1]) != c
  }

  /** A match of f starts with a bracket and this letter. */
  ghost predicate OpensWith(f: Rewriter, c: char) {
    forall s: string | s == [] || s[0] != '<' || (|s| > 1 && LowerAscii(s[1]) != c) :: !Matches(s, f)
  }

  lemma Passes(w: string, rest: string, f: Rewriter, c: char)
    requires OpensWith(f, c) && NoStart(w, c)
    ensures Rewrite(w + rest, f) == w + Rewrite(rest, f)
  {
    forall i | 0 <= i < |w|
      ensures !Matches(w[i..] + rest, f)
    {
      var s := w[i..] + rest;
      assert s[0] == w[i] && (i + 1 < |w| ==> s[1] == w[i + 1]);
    }
    RewritePasses(w, rest, f);
  }

  lemma NoBracketNoStart(w: string, c: char)
    requires '<' !in w
    ensures NoStart(w, c)
  {
  }

  lemma StartConcat(a: string, b: string, c: char)
    requires NoStart(a, c) && NoStart(b, c)
    ensures NoStart(a + b, c)
  {
    forall i | 0 <= i < |a + b| && (a + b)[i] == '<'
      ensures i + 1 < |a + b| && LowerAscii((a + b)[i + 1]) != c
    {
      if i >= |a| { assert b[i - |a|] == '<'; }
    }
  }

  lemma LinksOpenWithA()
    ensures OpensWith(LinkFound, 'a')
  {
    forall s: string | s == [] || s[0] != '<' || (|s| > 1 && LowerAscii(s[1]) != 'a')
      ensures LinkAt(s).None?
    {
      if |s| > 1 && s[0] == '<' { Mismatch(s, 0, "<a", 1); } else { NotAt(s, "<a"); }
    }
  }

  lemma BreaksOpenWithB()
    ensures OpensWith(Put(BreakLen, " "), 'b')
  {
    forall s: string | s == [] || s[0] != '<' || (|s| > 1 && LowerAscii(s[1]) != 'b')
      ensures BreakLen(s) == 0
    {
      if |s| > 1 && s[0] == '<' { Mismatch(s, 0, "<br", 1); } else { NotAt(s, "<br"); }
    }
  }

  // ------------------------------------------------------------ the brackets

  /** Where the brackets of a part are, before the step that is about it. */
  lemma TagStart(open: string, middle: string, close: string, c: char)
    requires |open| > 1 && open[0] == '<' && LowerAscii(open[1]) != c && '<' !in open[1..] && '<' !in middle
    requires close == [] || (|close| > 1 && close[0] == '<' && close[1] == '/' && '<' !in close[1..])
    requires c != '/'
    ensures NoStart(open + middle + close, c)
  {
    assert NoStart(open, c) by { OneBracket(open, c); }
    if close != [] { OneBracket(close, c); }
    StartConcat(open, middle, c);
    StartConcat(open + middle, close, c);
  }

  lemma OneBracket(w: string, c: char)
    requires |w| > 1 && w[0] == '<' && LowerAscii(w[1]) != c && '<' !in w[1..]
    ensures NoStart(w, c)
  {
    NoneInRest(w);
  }

  lemma NoneInRest(w: string)
    requires w != [] && '<' !in w[1..]
    ensures forall i | 0 < i < |w| :: w[i] != '<'
  {
    assert w == [w[0]] + w[1..];
  }

  lemma EmphasisStart(strong: bool, t: string, c: char)
    requires NoMarkup(t) && c != '/' && c != (if strong then 's' else 'b')
    ensures NoStart(Source(Emphasis(strong, t)), c)
  {
    var open, close := "<" + EmphasisName(strong) + ">", "</" + EmphasisName(strong) + ">";
    assert open + t + close == Source(Emphasis(strong, t));
    TagStart(open, t, close, c);
  }

  lemma BreakStart(space: string, slash: bool, c: char)
    requires Blank(space) && c != '/' && c != 'b'
    ensures NoStart(Source(Break(space, slash)), c)
  {
    WhiteIsNoBracket(space);
    var end := if slash then "/>" else ">";
    assert "<br" + (space + end) + [] == Source(Break(space, slash));
    TagStart("<br", space + end, [], c);
  }

  lemma WhiteIsNoBracket(space: string)
    requires Blank(space)
    ensures '<' !in space && '>' !in space && '/' !in space && '&' !in space
  {
  }

  lemma OtherStart(t: string, c: char)
    requires ValidPart(OtherTag(t)) && (c == 'a' || c == 'b' || c == 'c')
    ensures NoStart(Source(OtherTag(t)), c)
  {
    var w := "<" + t + ">";
    assert w[1] == t[0] && w[1..] == t + ">";
    OneBracket(w, c);
  }

  lemma AnchorStart(u: string, t: string, c: char)
    requires ValidPart(Anchor(u, t)) && c != '/' && c != 'a'
    ensures NoStart(Source(Anchor(u, t)), c)
  {
    var open := "<a href=\"";
    assert open + (u + "\">" + t) + "</a>" == Source(Anchor(u, t));
    TagStart(open, u + "\">" + t, "</a>", c);
  }

  lemma TokHasNoBracket(n: nat)
    ensures '<' !in Tok(n) && '&' !in Tok(n)
  {
  }

  lemma EntityHasNoBracket(k: nat)
    requires k < 7 && k != 5
    ensures '<' !in Entities.Entity(k).0
  {
  }

  /** Before step k, and if it is not the step that is about this part, no match with this letter starts in it. */
  lemma FormStart(p: Part, k: nat, n: nat, c: char)
    requires ValidPart(p) && StepOf(p) != k <= 3 && !p.Code?
    requires (k == 0 && c == 'c') || (k == 1 && c == 'a') || (k == 3 && c == 'b')
    ensures NoStart(Form(p, k, n), c)
  {
    if k > StepOf(p) {
      ResultHasNoBracket(p, n);
      NoBracketNoStart(Form(p, k, n), c);
    } else {
      match p
      case Words(t) => NoBracketNoStart(t, c);
      case Emphasis(strong, t) => EmphasisStart(strong, t, c);
      case Break(space, slash) => BreakStart(space, slash, c);
      case OtherTag(t) => OtherStart(t, c);
      case Anchor(u, t) => AnchorStart(u, t, c);
      case Entity(e) => EntityHasNoBracket(e); NoBracketNoStart(Source(p), c);
    }
  }

  lemma ResultHasNoBracket(p: Part, n: nat)
    requires ValidPart(p) && !p.Entity?
    ensures '<' !in Result(p, n)
  {
    TokHasNoBracket(n);
    hide Tok;
  }

  // -------------------------------------------------------------- the matches

  lemma FindParts(s: string, len: Matcher)
    ensures 0 < len(s) <= |s| ==> Find(s, len) == Some(0)
    ensures len(s) == 0 && s != [] ==>
              Find(s, len) == match Find(s[1..], len) case None => None case Some(k) => Some(k + 1)
  {
  }

  lemma {:induction false} FindFromAt(s: string, len: Matcher, p: nat, k: nat)
    requires p <= k <= |s| && 0 < len(s[k..]) <= |s| - k
    requires forall i | p <= i < k :: len(s[i..]) == 0
    ensures Find(s[p..], len) == Some(k - p)
    decreases k - p
  {
    hide Find;
    FindParts(s[p..], len);
    if p < k {
      FindFromAt(s, len, p + 1, k);
      assert s[p..][1..] == s[p + 1..];
    }
  }

  lemma FindPast(pre: string, rest: string, len: Matcher)
    requires forall i | 0 <= i < |pre| :: len(pre[i..] + rest) == 0
    requires 0 < len(rest) <= |rest|
    ensures Find(pre + rest, len) == Some(|pre|)
  {
    hide Find;
    var s, k := pre + rest, |pre|;
    assert s[k..] == rest && s[0..] == s;
    forall i | 0 <= i < k
      ensures len(s[i..]) == 0
    {
      assert s[i..] == pre[i..] + rest;
    }
    FindFromAt(s, len, 0, k);
  }

  lemma CloseOnce(x: string, rest: string, i: nat)
    requires NoClose(x) && i < |x|
    ensures AnyCase(CODE_CLOSE)(x[i..] + (CODE_CLOSE + rest)) == 0
  {
    var s, t := x[i..] + (CODE_CLOSE + rest), x + CODE_CLOSE;
    assert forall k | 0 <= k < 8 && i + k < |t| :: s[k] == t[i + k];
    if MatchesAt(s, 0, CODE_CLOSE) {
      assert forall k | 0 <= k < |CODE_CLOSE| :: LowerAscii(t[i + k]) == LowerAscii(s[0 + k]) == CODE_CLOSE[k];
      assert MatchesAt(t, i, CODE_CLOSE);
    }
  }

  lemma CodeAtFront(x: string, rest: string)
    requires NoClose(x)
    ensures CodeLen(CodeTag(x) + rest) == |CodeTag(x)|
  {
    hide Find, NoClose;
    var s, after := CodeTag(x) + rest, CODE_CLOSE + rest;
    assert s == CODE_OPEN + (x + after) && s[6..] == x + after;
    assert MatchesAt(s, 0, CODE_OPEN) && MatchesAt(after, 0, CODE_CLOSE);
    forall i | 0 <= i < |x|
      ensures AnyCase(CODE_CLOSE)(x[i..] + after) == 0
    {
      CloseOnce(x, rest, i);
    }
    FindPast(x, after, AnyCase(CODE_CLOSE));
  }

  lemma AnchorAtFront(u: string, t: string, rest: string)
    requires ValidPart(Anchor(u, t))
    ensures var w := Source(Anchor(u, t)) + rest;
            && Matches(w, LinkFound) && LinkFound(w).value.len == |Source(Anchor(u, t))|
            && Apply(Source(Anchor(u, t)), LinkFound(w).value.edit) == Result(Anchor(u, t), 0)
  {
    hide Href, LinkAt, Apply;
    var attrs := " href=" + ("\"" + (u + "\""));
    var w := Source(Anchor(u, t));
    AddressOf(u);
    LinkOf(attrs, t, rest);
    assert "<a" + (attrs + (">" + (t + ("</a>" + rest)))) == w + rest;
    var from := |attrs| + 3;
    var m := Link(from + |t| + 4, Range(from, from + |t|), Some(Range(9, 9 + |u|)));
    assert LinkAt(w + rest) == Some(m);
    assert |w| == m.len && w[m.text.from..m.text.to] == t && w[9..9 + |u|] == u;
    ApplyLink(w, m);
  }

  lemma CloseTagStarts(name: string)
    ensures StartsWith(AnyCase("</" + name + ">"), '<')
  {
    forall s: string | s == [] || s[0] != '<'
      ensures AnyCase("</" + name + ">")(s) == 0
    {
      NotAt(s, "</" + name + ">");
    }
  }

  lemma EmphasisTagIs(strong: bool, rest: string)
    ensures EmphasisTag("<" + EmphasisName(strong) + ">" + rest) == EmphasisName(strong)
  {
    var w := "<" + EmphasisName(strong) + ">" + rest;
    if strong {
      assert MatchesAt(w, 0, "<strong>");
    } else {
      Mismatch(w, 0, "<strong>", 1);
      assert MatchesAt(w, 0, "<b>");
    }
  }

  lemma EmphasisAtFront(strong: bool, t: string, rest: string)
    requires NoMarkup(t)
    ensures var w := Source(Emphasis(strong, t)) + rest;
            && Matches(w, EmphasisFound) && EmphasisFound(w).value.len == |Source(Emphasis(strong, t))|
            && Apply(Source(Emphasis(strong, t)), EmphasisFound(w).value.edit) == "**" + t + "**"
  {
    hide Find, EmphasisTag, Apply, AnyCase, StartsWith;
    var name := EmphasisName(strong);
    var open, close := "<" + name + ">", "</" + name + ">";
    var w := Source(Emphasis(strong, t));
    var from := |open|;
    assert w == open + t + close;
    assert w + rest == open + (t + (close + rest));
    assert (w + rest)[from..] == t + (close + rest);
    EmphasisTagIs(strong, t + (close + rest));
    CloseTagStarts(name);
    CloseMatches(strong, rest);
    FindFrom(t, close + rest, AnyCase(close), '<');
    assert w[from..from + |t|] == t;
    EmphasisApplied(w, from, t);
  }

  lemma CloseMatches(strong: bool, rest: string)
    ensures var close := "</" + EmphasisName(strong) + ">"; AnyCase(close)(close + rest) == |close|
  {
    var close := "</" + EmphasisName(strong) + ">";
    assert forall k | 0 <= k < |close| :: LowerAscii((close + rest)[0 + k]) == close[k];
    assert MatchesAt(close + rest, 0, close);
  }

  lemma EmphasisApplied(w: string, from: nat, t: string)
    requires from + |t| <= |w| && w[from..from + |t|] == t
    ensures Apply(w, [Literal("**"), Kept(from, from + |t|), Literal("**")]) == "**" + t + "**"
  {
    var edit := [Literal("**"), Kept(from, from + |t|), Literal("**")];
    assert edit[0..] == edit && edit[3..] == [];
    hide Apply;
    ApplyFrom(w, edit, 0);
    ApplyFrom(w, edit, 1);
    ApplyFrom(w, edit, 2);
    assert "**" + (t + ("**" + [])) == "**" + t + "**";
  }

  lemma BreakAtFront(space: string, slash: bool, rest: string)
    requires Blank(space)
    ensures BreakLen(Source(Break(space, slash)) + rest) == |Source(Break(space, slash))|
  {
    hide BreakLen, MatchesAt, TrimStart;
    var t := (if slash then "/>" else ">") + rest;
    var w := Source(Break(space, slash)) + rest;
    assert w == "<br" + (space + t);
    assert w[3..] == space + t;
    OpensBreak(space + t);
    TrimStartPast(space, t);
    BreakEnd(slash, rest);
    BreakLenIs(w, t, slash);
  }

  lemma BreakLenIs(w: string, t: string, slash: bool)
    requires MatchesAt(w, 0, "<br") && TrimStart(w[3..]) == t && (slash <==> "/>" <= t) && (!slash ==> ">" <= t)
    ensures |t| <= |w| && BreakLen(w) == |w| - |t| + if slash then 2 else 1
  {
    TrimStartShrinks(w[3..]);
    hide MatchesAt, TrimStart;
  }

  lemma OpensBreak(rest: string)
    ensures MatchesAt("<br" + rest, 0, "<br")
  {
  }

  lemma BreakEnd(slash: bool, rest: string)
    ensures var t := (if slash then "/>" else ">") + rest;
            && TrimStart(t) == t && (slash <==> "/>" <= t) && (!slash ==> ">" <= t)
  {
    var t := (if slash then "/>" else ">") + rest;
    assert slash ==> t[..2] == "/>";
    assert !slash ==> t[0] == '>' && "/>"[0] == '/';
  }

  lemma TagAtFront(t: string, rest: string)
    requires t != [] && '>' !in t
    ensures TagLen(Source(OtherTag(t)) + rest) == |Source(OtherTag(t))|
    requires ValidPart(OtherTag(t))
  {
    hide Find;
    var w := Source(OtherTag(t)) + rest;
    assert w[1..] == t + (">" + rest);
    FindsBracket(t, rest);
  }

  // ---------------------------------------------------------------- the steps

  function Step(k: nat): Rewriter
    requires 1 <= k <= 4
  {
    if k == 1 then LinkFound else if k == 2 then EmphasisFound
    else if k == 3 then Put(BreakLen, " ") else Put(TagLen, "")
  }

  lemma NoEmphasisIn(w: string, rest: string)
    requires |w| > 1 && w[0] == '<' && '<' !in w[1..]
    requires EmphasisTag(w + rest) == []
    ensures Rewrite(w + rest, EmphasisFound) == w + Rewrite(rest, EmphasisFound)
  {
    hide EmphasisTag, RewritesFrom;
    TagsStart();
    forall i | 0 <= i < |w|
      ensures !Matches(w[i..] + rest, EmphasisFound)
    {
      if i == 0 {
        assert w[0..] + rest == w + rest;
      } else {
        NoneInRest(w);
        NoneElsewhere(w[i..] + rest, EmphasisFound);
      }
    }
    RewritePasses(w, rest, EmphasisFound);
  }

  lemma NoneElsewhere(s: string, f: Rewriter)
    requires RewritesFrom(f, '<') && s != [] && s[0] != '<'
    ensures !Matches(s, f)
  {
  }

  lemma BreakIsNoEmphasis(space: string, slash: bool, rest: string)
    requires Blank(space)
    ensures EmphasisTag(Source(Break(space, slash)) + rest) == []
  {
    var w := Source(Break(space, slash)) + rest;
    Mismatch(w, 0, "<strong>", 1);
    Mismatch(w, 0, "<b>", 2);
  }

  lemma OtherIsNoEmphasis(t: string, rest: string)
    requires ValidPart(OtherTag(t))
    ensures EmphasisTag(Source(OtherTag(t)) + rest) == []
  {
    var v := "<" + t + ">";
    var w := v + rest;
    assert w[1] == t[0] && w[|t| + 1] == '>';
    Mismatch(w, 0, "<b>", 1);
    if |v| < 8 {
      assert LowerAscii('>') == '>';
      Mismatch(w, 0, "<strong>", |t| + 1);
    } else {
      SameStart(v, rest);
    }
  }

  lemma SameStart(v: string, rest: string)
    requires |v| >= 8 && !MatchesAt(v, 0, "<strong>")
    ensures !MatchesAt(v + rest, 0, "<strong>")
  {
    var k :| 0 <= k < 8 && LowerAscii(v[0 + k]) != "<strong>"[k];
    assert (v + rest)[0 + k] == v[0 + k];
  }

  /** Tags that are neither emphasis nor a link stand where they stood. */
  lemma SecondStep(p: Part, n: nat, rest: string)
    requires ValidPart(p)
    ensures Rewrite(Form(p, 2, n) + rest, EmphasisFound) == Form(p, 3, n) + Rewrite(rest, EmphasisFound)
  {
    hide Rewrite, EmphasisFound, EmphasisTag, Tok;
    match p {
      case Emphasis(strong, t) =>
        EmphasisAtFront(strong, t, rest);
        RewriteAt(Source(p), rest, EmphasisFound);
      case Break(space, slash) =>
        BreakIsNoEmphasis(space, slash, rest);
        BreakStart(space, slash, 'c');
        OnlyFirst("<br", space, slash);
        NoEmphasisIn(Source(p), rest);
      case OtherTag(t) =>
        OtherIsNoEmphasis(t, rest);
        assert Source(p)[1..] == t + ">";
        NoEmphasisIn(Source(p), rest);
      case _ =>
        NoBracketAt2(p, n);
        TagsStart();
        RewriteSkips(Form(p, 2, n), rest, EmphasisFound, '<');
    }
  }

  lemma OnlyFirst(open: string, space: string, slash: bool)
    requires Blank(space)
    ensures var w := Source(Break(space, slash)); |w| > 1 && w[0] == '<' && '<' !in w[1..]
  {
    WhiteIsNoBracket(space);
    var end := if slash then "/>" else ">";
    assert Source(Break(space, slash))[1..] == "br" + space + end;
  }

  lemma NoBracketAt2(p: Part, n: nat)
    requires ValidPart(p) && !p.Emphasis? && !p.Break? && !p.OtherTag?
    ensures '<' !in Form(p, 2, n) && Form(p, 3, n) == Form(p, 2, n)
  {
    TokHasNoBracket(n);
    if p.Entity? { EntityHasNoBracket(p.which); }
    hide Tok;
  }

  lemma PartStep(p: Part, k: nat, n: nat, rest: string)
    requires ValidPart(p) && 1 <= k <= 4
    ensures Rewrite(Form(p, k, n) + rest, Step(k)) == Form(p, k + 1, n) + Rewrite(rest, Step(k))
  {
    hide Rewrite, Source, Result;
    if k == 1 {
      FirstStep(p, n, rest);
    } else if k == 2 {
      SecondStep(p, n, rest);
    } else if k == 3 {
      ThirdStep(p, n, rest);
    } else {
      FourthStep(p, n, rest);
    }
  }

  lemma FirstStep(p: Part, n: nat, rest: string)
    requires ValidPart(p)
    ensures Rewrite(Form(p, 1, n) + rest, LinkFound) == Form(p, 2, n) + Rewrite(rest, LinkFound)
  {
    hide Rewrite, LinkFound, Tok, Source, Result, OpensWith, NoStart;
    if p.Anchor? {
      AnchorAtFront(p.address, p.text, rest);
      RewriteAt(Source(p), rest, LinkFound);
      SameResult(p, n);
    } else {
      LinksOpenWithA();
      PassesAt(p, 1, n, 'a');
      Passes(Form(p, 1, n), rest, LinkFound, 'a');
    }
  }

  lemma SameResult(p: Part, n: nat)
    requires ValidPart(p) && !p.Code?
    ensures Result(p, n) == Result(p, 0)
  {
  }

  lemma PassesAt(p: Part, k: nat, n: nat, c: char)
    requires ValidPart(p) && StepOf(p) != k && ((k == 1 && c == 'a') || (k == 3 && c == 'b'))
    ensures NoStart(Form(p, k, n), c) && (Form(p, k, n) == Form(p, k + 1, n))
  {
    hide NoStart, Tok;
    if p.Code? {
      TokHasNoBracket(n);
      NoBracketNoStart(Tok(n), c);
    } else {
      FormStart(p, k, n, c);
    }
    if p.Words? { assert Source(p) == Result(p, n); }
  }

  lemma ThirdStep(p: Part, n: nat, rest: string)
    requires ValidPart(p)
    ensures Rewrite(Form(p, 3, n) + rest, Put(BreakLen, " ")) == Form(p, 4, n) + Rewrite(rest, Put(BreakLen, " "))
  {
    hide Rewrite, BreakLen, Tok, OpensWith, NoStart, Put;
    if p.Break? {
      BreakAtFront(p.space, p.slash, rest);
      PutAtFront(Source(p), rest, BreakLen, " ");
    } else {
      BreaksOpenWithB();
      PassesAt(p, 3, n, 'b');
      Passes(Form(p, 3, n), rest, Put(BreakLen, " "), 'b');
    }
  }

  lemma FourthStep(p: Part, n: nat, rest: string)
    requires ValidPart(p)
    ensures Rewrite(Form(p, 4, n) + rest, Put(TagLen, "")) == Form(p, 5, n) + Rewrite(rest, Put(TagLen, ""))
  {
    hide Rewrite, TagLen, Tok, RewritesFrom, Put;
    if p.OtherTag? {
      TagAtFront(p.inside, rest);
      PutAtFront(Source(p), rest, TagLen, "");
    } else {
      TagsStart();
      if p.Entity? { EntityHasNoBracket(p.which); } else { ResultHasNoBracket(p, n); }
      RewriteSkips(Form(p, 4, n), rest, Put(TagLen, ""), '<');
    }
  }

  /** One step over the whole cell. */
  lemma {:induction false} StepOver(ps: seq<Part>, k: nat, n: nat)
    requires ValidParts(ps) && 1 <= k <= 4
    ensures Rewrite(TextAt(ps, k, n), Step(k)) == TextAt(ps, k + 1, n)
  {
    hide Rewrite, Form, Step;
    if ps == [] {
      RewriteParts([], Step(k));
    } else {
      StepOver(ps[1..], k, Next(ps[0], n));
      PartStep(ps[0], k, n, TextAt(ps[1..], k, Next(ps[0], n)));
    }
  }

  function Tags(codes: seq<string>): (r: seq<string>)
    ensures |r| == |codes|
  {
    seq(|codes|, i requires 0 <= i < |codes| => CodeTag(codes[i]))
  }

  lemma ZerothStep(p: Part, n: nat, rest: string)
    requires ValidPart(p) && !p.Code?
    ensures Lift(MARK, Form(p, 0, n) + rest, CodeLen, n) == Form(p, 1, n) + Lift(MARK, rest, CodeLen, n)
    ensures Lifted(Form(p, 0, n) + rest, CodeLen) == Lifted(rest, CodeLen)
  {
    hide Lift, Lifted, Source, Result;
    if p.Words? {
      WordsStay(p, n);
    } else {
      FormStart(p, 0, n, 'c');
    }
    LiftPasses(Form(p, 0, n), rest, n);
  }

  lemma WordsStay(p: Part, n: nat)
    requires ValidPart(p) && p.Words?
    ensures Form(p, 0, n) == Form(p, 1, n) && NoCodeStart(Form(p, 0, n))
  {
  }

  lemma {:induction false} LiftOver(ps: seq<Part>, n: nat)
    requires ValidParts(ps)
    ensures Lift(MARK, TextAt(ps, 0, n), CodeLen, n) == TextAt(ps, 1, n)
    ensures Lifted(TextAt(ps, 0, n), CodeLen) == Tags(CodesOf(ps))
  {
    hide Lift, Lifted, Form, CodeLen;
    LiftNothing(MARK, CodeLen);
    if ps != [] {
      var p, rest := ps[0], TextAt(ps[1..], 0, Next(ps[0], n));
      LiftOver(ps[1..], Next(p, n));
      if p.Code? {
        CodeForms(p, n);
        CodeAtFront(p.text, rest);
        LiftAt(MARK, CodeTag(p.text), rest, CodeLen, n);
        assert Tags(CodesOf(ps)) == [CodeTag(p.text)] + Tags(CodesOf(ps[1..]));
      } else {
        ZerothStep(p, n, rest);
        assert CodesOf(ps) == [] + CodesOf(ps[1..]) == CodesOf(ps[1..]);
      }
    }
  }

  lemma CodeForms(p: Part, n: nat)
    requires ValidPart(p) && p.Code?
    ensures Form(p, 0, n) == CodeTag(p.text) != [] && Form(p, 1, n) == Tok(n)
  {
    TagNotEmpty(p.text);
  }

  lemma PartDecodes(p: Part, n: nat, rest: string)
    requires ValidPart(p)
    ensures DecodeEntities(Form(p, 5, n) + rest) == Form(p, 6, n) + DecodeEntities(rest)
  {
    hide DecodeEntities, Tok;
    if p.Entity? {
      Entities.OneEntity(p.which, rest);
    } else {
      NoAmpersand(p, n);
      Entities.Plain(Form(p, 5, n), rest);
    }
  }

  lemma NoAmpersand(p: Part, n: nat)
    requires ValidPart(p) && !p.Entity?
    ensures '&' !in Form(p, 5, n) && Form(p, 6, n) == Form(p, 5, n)
  {
    TokHasNoBracket(n);
    hide Tok;
  }

  lemma {:induction false} DecodeOver(ps: seq<Part>, n: nat)
    requires ValidParts(ps)
    ensures DecodeEntities(TextAt(ps, 5, n)) == TextAt(ps, 6, n)
  {
    hide DecodeEntities, Form;
    if ps == [] {
      Entities.NothingDecoded();
    } else {
      DecodeOver(ps[1..], Next(ps[0], n));
      PartDecodes(ps[0], n, TextAt(ps[1..], 5, Next(ps[0], n)));
    }
  }

  // --------------------------------------------------------------- whole cells

  lemma {:induction false} NoMarkIn(ps: seq<Part>, n: nat)
    requires ValidParts(ps)
    ensures MARK !in TextAt(ps, 0, n)
  {
    if ps != [] {
      NoMarkInSource(ps[0]);
      NoMarkIn(ps[1..], Next(ps[0], n));
      hide Source;
    }
  }

  lemma NoMarkInSource(p: Part)
    requires ValidPart(p)
    ensures MARK !in Source(p)
  {
    match p
    case Break(space, _) => WhiteIsNoMark(space);
    case Entity(k) => EntityHasNoMark(k);
    case _ =>
  }

  lemma EntityHasNoMark(k: nat)
    requires k < 7
    ensures MARK !in Entities.Entity(k).0
  {
  }

  lemma WhiteIsNoMark(space: string)
    requires Blank(space)
    ensures MARK !in space
  {
  }

  /** The lookup aside: every part has become what it stands for. */
  lemma PartsBecome(ps: seq<Part>)
    requires ValidParts(ps)
    ensures DecodeEntities(Untagged(Html(ps))) == TextAt(ps, 6, 0) && CodeMatches(Html(ps)) == Tags(CodesOf(ps))
  {
    hide Lift, Lifted, Rewrite, DecodeEntities, TextAt, CodeLen, LinkFound, EmphasisFound, BreakLen, TagLen, Put;
    NoMarkIn(ps, 0);
    LiftOver(ps, 0);
    StepOver(ps, 1, 0);
    StepOver(ps, 2, 0);
    StepOver(ps, 3, 0);
    StepOver(ps, 4, 0);
    DecodeOver(ps, 0);
  }

  /** All white space is single spaces between other characters. */
  predicate Neat(s: string) {
    forall i | 0 <= i < |s| && IsWhite(s[i]) ::
      s[i] == ' ' && 0 < i < |s| - 1 && !IsWhite(s[i - 1]) && !IsWhite(s[i + 1])
  }

  predicate NeatBehind(s: string) {
    forall i | 0 <= i < |s| && IsWhite(s[i]) :: s[i] == ' ' && i + 1 < |s| && !IsWhite(s[i + 1])
  }

  lemma {:induction false} CollapseNeat(s: string)
    requires NeatBehind(s)
    ensures CacheKeys.Collapse(s) == s
  {
    if s != [] {
      assert forall i | 0 <= i < |s| - 1 :: s[1..][i] == s[i + 1];
      CollapseNeat(s[1..]);
      if IsWhite(s[0]) {
        assert !IsWhite(s[1]) && TrimStart(s[1..]) == s[1..] && TrimStart(s) == s[1..];
        assert " " + s[1..] == s;
      } else {
        assert [s[0]] + s[1..] == s;
      }
    }
  }

  lemma {:induction false} EscapeEnds(s: string)
    requires s != []
    ensures var e := EscapePipes(s);
            && e != [] && (e[0] == s[0] || e[0] == '\\') && e[|e| - 1] == s[|s| - 1]
  {
    if |s| == 1 {
      assert EscapePipes(s[1..]) == [];
    } else {
      EscapeEnds(s[1..]);
    }
  }

  lemma NeatStays(s: string)
    requires Neat(s)
    ensures Trim(EscapePipes(CacheKeys.Collapse(s))) == EscapePipes(s)
  {
    CollapseNeat(s);
    hide EscapePipes, Trim;
    if s == [] {
      NothingEscaped();
    } else {
      EscapeEnds(s);
      var e := EscapePipes(s);
      TrimUnique([], e, []);
      assert [] + e + [] == e;
    }
  }

  lemma NothingEscaped()
    ensures EscapePipes([]) == [] && Trim([]) == []
  {
  }

  /** What a span of code is written as: decoded, on one line, its pipes escaped. */
  function CodeText(x: string): string {
    "`" + EscapePipes(Trim(CacheKeys.Collapse(DecodeEntities(x)))) + "`"
  }

  /** What each part is written as. */
  function Markdown(ps: seq<Part>): string
    requires ValidParts(ps)
  {
    if ps == [] then [] else MarkdownOf(ps[0]) + Markdown(ps[1..])
  }

  function MarkdownOf(p: Part): string
    requires ValidPart(p)
  {
    match p
    case Words(t) => EscapePipes(t)
    case Emphasis(_, t) => "**" + EscapePipes(t) + "**"
    case Break(_, _) => " "
    case OtherTag(_) => ""
    case Anchor(u, t) => "[" + EscapePipes(t) + "](" + EscapePipes(u) + ")"
    case Code(x) => CodeText(x)
    case Entity(k) => EscapePipes([Entities.Entity(k).1])
  }

  lemma {:induction false} EscapedNoMark(s: string)
    requires MARK !in s
    ensures MARK !in EscapePipes(s)
  {
    if s != [] { EscapedNoMark(s[1..]); }
  }

  lemma EscapedResult(p: Part, n: nat)
    requires ValidPart(p) && !p.Code?
    ensures EscapePipes(Result(p, n)) == MarkdownOf(p) && MARK !in Result(p, n)
  {
    hide EscapePipes;
    match p
    case Emphasis(_, t) =>
      EscapeNothing("**");
      EscapeConcat("**" + t, "**");
      EscapeConcat("**", t);
    case Anchor(u, t) =>
      EscapeNothing("[");
      EscapeNothing("](");
      EscapeNothing(")");
      EscapeConcat("[" + t + "](" + u, ")");
      EscapeConcat("[" + t + "](", u);
      EscapeConcat("[" + t, "](");
      EscapeConcat("[", t);
    case Break(_, _) => EscapeNothing(" ");
    case OtherTag(_) => NothingEscaped();
    case _ =>
  }

  lemma TokIsNotEscaped(n: nat)
    ensures EscapePipes(Tok(n)) == Tok(n)
  {
    EscapeNothing(Tok(n));
  }

  /** From span n on the lookup answers with these. */
  ghost predicate Answers(body: nat -> string, n: nat, codes: seq<string>) {
    forall i | 0 <= i < |codes| :: body(n + i) == CodeText(codes[i])
  }

  lemma {:induction false} RestoreOver(ps: seq<Part>, n: nat, body: nat -> string)
    requires ValidParts(ps) && Answers(body, n, CodesOf(ps))
    ensures Restore(MARK, EscapePipes(TextAt(ps, 6, n)), body) == Markdown(ps)
  {
    hide Restore, EscapePipes, Result, MarkdownOf, CodeText, Tok;
    NothingEscaped();
    RestoreNothing(MARK, [], body);
    if ps != [] {
      var p, rest := ps[0], TextAt(ps[1..], 6, Next(ps[0], n));
      EscapeConcat(Form(p, 6, n), rest);
      AnswersRest(ps, n, body);
      RestoreOver(ps[1..], Next(p, n), body);
      if p.Code? {
        TokIsNotEscaped(n);
        CodeResult(p, n);
        RestoreToken(MARK, n, EscapePipes(rest), body);
      } else {
        EscapedResult(p, n);
        EscapedNoMark(Result(p, n));
        RestoreSkips(MARK, EscapePipes(Result(p, n)), EscapePipes(rest), body);
      }
    }
  }

  lemma CodeResult(p: Part, n: nat)
    requires ValidPart(p) && p.Code?
    ensures Result(p, n) == Tok(n) == Shown(MARK, Token(n)) && MarkdownOf(p) == CodeText(p.text)
  {
  }

  lemma AnswersRest(ps: seq<Part>, n: nat, body: nat -> string)
    requires ps != [] && Answers(body, n, CodesOf(ps))
    ensures Answers(body, Next(ps[0], n), CodesOf(ps[1..]))
    ensures ps[0].Code? ==> body(n) == CodeText(ps[0].text)
  {
    hide CodeText;
    var all, rest := CodesOf(ps), CodesOf(ps[1..]);
    if ps[0].Code? {
      assert all[0] == ps[0].text && body(n + 0) == CodeText(all[0]);
      forall i | 0 <= i < |rest|
        ensures body(n + 1 + i) == CodeText(rest[i])
      {
        assert all[i + 1] == rest[i] && body(n + (i + 1)) == CodeText(all[i + 1]);
      }
    } else {
      assert all == [] + rest == rest;
    }
  }

  lemma BodyOfCode(x: string)
    ensures CodeBody(CodeTag(x)) == Trim(CacheKeys.Collapse(DecodeEntities(x)))
  {
    var w := CodeTag(x);
    assert w[6..|w| - 7] == x;
  }

  lemma BodiesAnswer(ps: seq<Part>)
    requires ValidParts(ps) && CodeMatches(Html(ps)) == Tags(CodesOf(ps))
    ensures Answers(CodeSpan(CodeBodies(Html(ps))), 0, CodesOf(ps))
  {
    hide CodeMatches, CodeBody, EscapePipes, Trim, DecodeEntities, CodeTag;
    var codes := CodesOf(ps);
    forall i | 0 <= i < |codes|
      ensures CodeSpan(CodeBodies(Html(ps)))(0 + i) == CodeText(codes[i])
    {
      BodyOfCode(codes[i]);
    }
  }

  /** A cell is rendered part by part: words as they are, emphasis between asterisks, a break as a space, a link as a
      link, code as code with its entities decoded, an entity as its character, any other tag as nothing, and every
      pipe escaped; as long as that leaves nothing but single spaces between words. */
  lemma RenderedByParts(ps: seq<Part>)
    requires ValidParts(ps) && Neat(TextAt(ps, 6, 0))
    ensures RenderCell(Html(ps)) == Markdown(ps)
  {
    hide Untagged, DecodeEntities, EscapePipes, Restore, CodeMatches, CodeBodies, TextAt, Html, Markdown, Neat;
    hide CodeSpan;
    PartsBecome(ps);
    NeatStays(TextAt(ps, 6, 0));
    BodiesAnswer(ps);
    RestoreOver(ps, 0, CodeSpan(CodeBodies(Html(ps))));
  }
}
