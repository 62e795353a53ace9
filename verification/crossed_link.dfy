/** The case in which rendering a cell puts two code spans out of order: a link with one in its address and one in
    its text. */
module CrossedLink {
  import opened Text
  import opened Lines
  import opened Placeholders
  import opened Patterns
  import opened HtmlCell
  import CacheKeys

  predicate IsLowerWord(s: string) {
    s != [] && forall i | 0 <= i < |s| :: 'a' <= s[i] <= 'z'
  }

  function CodeTag(x: string): string {
    CODE_OPEN + x + CODE_CLOSE
  }

  const LINK_OPEN: string := "<a href=\""

  function LinkCell(x: string, y: string): string {
    LINK_OPEN + (CodeTag(x) + ("\">" + (CodeTag(y) + "</a>")))
  }

  // -------------------------------------------------------- finding nothing

  lemma EntityStarts(pattern: string, put: string)
    requires pattern != [] && pattern[0] == '&'
    ensures RewritesFrom(Put(Exactly(pattern), put), '&')
  {
  }

  lemma DecodeNothing(s: string)
    requires '&' !in s
    ensures DecodeEntities(s) == s
  {
    hide Rewrite, Exactly, Put, RewritesFrom;
    EntityStarts("&#123;", "{");
    RewriteNothing(s, Put(Exactly("&#123;"), "{"), '&');
    EntityStarts("&#125;", "}");
    RewriteNothing(s, Put(Exactly("&#125;"), "}"), '&');
    EntityStarts("&#124;", "|");
    RewriteNothing(s, Put(Exactly("&#124;"), "|"), '&');
    EntityStarts("&lt;", "<");
    RewriteNothing(s, Put(Exactly("&lt;"), "<"), '&');
    EntityStarts("&gt;", ">");
    RewriteNothing(s, Put(Exactly("&gt;"), ">"), '&');
    EntityStarts("&amp;", "&");
    RewriteNothing(s, Put(Exactly("&amp;"), "&"), '&');
    EntityStarts("&quot;", "\"");
    RewriteNothing(s, Put(Exactly("&quot;"), "\""), '&');
  }

  lemma TagsStart()
    ensures RewritesFrom(EmphasisFound, '<') && RewritesFrom(Put(BreakLen, " "), '<')
        && RewritesFrom(Put(TagLen, ""), '<')
  {
    forall s: string | s == [] || s[0] != '<'
      ensures !Matches(s, EmphasisFound) && BreakLen(s) == 0 && TagLen(s) == 0
    {
      NotAt(s, "<strong>");
      NotAt(s, "<b>");
      NotAt(s, "<br");
    }
  }

  lemma NotAt(s: string, pattern: string)
    requires pattern != [] && pattern[0] == '<' && (s == [] || s[0] != '<')
    ensures !MatchesAt(s, 0, pattern)
  {
    if MatchesAt(s, 0, pattern) { AnyCaseEnds(s, pattern); }
  }

  /** A text without markup, entities, pipes and white space is rendered as it is. */
  predicate Bare(s: string) {
    forall i | 0 <= i < |s| :: s[i] != '<' && s[i] != '&' && s[i] != '|' && !IsWhite(s[i])
  }

  lemma OnOneLine(s: string)
    requires Bare(s)
    ensures Trim(CacheKeys.Collapse(DecodeEntities(s))) == s
        && Trim(EscapePipes(CacheKeys.Collapse(DecodeEntities(s)))) == s
    ensures EscapePipes(s) == s
  {
    hide DecodeEntities, EscapePipes;
    DecodeNothing(s);
    CacheKeys.CollapseWord(s, []);
    assert s + [] == s && CacheKeys.Collapse([]) == [];
    EscapeNothing(s);
    TrimUnique([], s, []);
    assert [] + s + [] == s;
  }

  lemma NothingToRewrite(s: string)
    requires Bare(s)
    ensures Rewrite(Rewrite(Rewrite(s, EmphasisFound), Put(BreakLen, " ")), Put(TagLen, "")) == s
  {
    hide Rewrite, RewritesFrom;
    TagsStart();
    RewriteNothing(s, EmphasisFound, '<');
    RewriteNothing(s, Put(BreakLen, " "), '<');
    RewriteNothing(s, Put(TagLen, ""), '<');
  }

  // ------------------------------------------------------ lifting the spans

  /** No bracket in it starts a code span. */
  predicate NoCodeStart(pre: string) {
    forall i | 0 <= i < |pre| && pre[i] == '<' :: i + 1 < |pre| && LowerAscii(pre[i + 1]) != 'c'
  }

  lemma NoCodeAt(s: string)
    requires s != [] && (s[0] == '<' ==> |s| > 1 && LowerAscii(s[1]) != 'c')
    ensures CodeLen(s) == 0
  {
    if s[0] == '<' {
      Mismatch(s, 0, CODE_OPEN, 1);
    } else {
      NotAt(s, CODE_OPEN);
    }
  }

  lemma {:induction false} LiftPasses(pre: string, rest: string, next: nat)
    requires NoCodeStart(pre)
    ensures Lift(MARK, pre + rest, CodeLen, next) == pre + Lift(MARK, rest, CodeLen, next)
    ensures Lifted(pre + rest, CodeLen) == Lifted(rest, CodeLen)
  {
    hide Lift, Lifted, CodeLen;
    if pre == [] {
      assert pre + rest == rest;
      assert pre + Lift(MARK, rest, CodeLen, next) == Lift(MARK, rest, CodeLen, next);
    } else {
      var s := pre + rest;
      assert s[0] == pre[0] && (|pre| > 1 ==> s[1] == pre[1]) && s[1..] == pre[1..] + rest;
      NoCodeAt(s);
      LiftStep(MARK, s, CodeLen, next);
      LiftPasses(pre[1..], rest, next);
      Assoc([pre[0]], pre[1..], Lift(MARK, rest, CodeLen, next));
      assert [pre[0]] + pre[1..] == pre;
    }
  }

  lemma CloseStarts()
    ensures StartsWith(AnyCase(CODE_CLOSE), '<')
  {
    forall s: string | s == [] || s[0] != '<'
      ensures AnyCase(CODE_CLOSE)(s) == 0
    {
      NotAt(s, CODE_CLOSE);
    }
  }

  lemma CodeTagLen(x: string, rest: string)
    requires '<' !in x
    ensures CodeLen(CodeTag(x) + rest) == |CodeTag(x)|
  {
    hide Find, StartsWith;
    var s, after := CodeTag(x) + rest, CODE_CLOSE + rest;
    assert s == CODE_OPEN + (x + after) && s[6..] == x + after;
    assert MatchesAt(s, 0, CODE_OPEN) && MatchesAt(after, 0, CODE_CLOSE);
    CloseStarts();
    FindFrom(x, after, AnyCase(CODE_CLOSE), '<');
  }

  lemma LiftsTag(x: string, rest: string, next: nat)
    requires '<' !in x
    ensures Lift(MARK, CodeTag(x) + rest, CodeLen, next) == Tok(next) + Lift(MARK, rest, CodeLen, next + 1)
    ensures Lifted(CodeTag(x) + rest, CodeLen) == [CodeTag(x)] + Lifted(rest, CodeLen)
  {
    hide Lift, Lifted, CodeLen, CodeTag, Shown;
    CodeTagLen(x, rest);
    TagNotEmpty(x);
    LiftAt(MARK, CodeTag(x), rest, CodeLen, next);
  }

  lemma TagNotEmpty(x: string)
    ensures CodeTag(x) != []
  {
  }

  function Tok(n: nat): string {
    Shown(MARK, Token(n))
  }

  function LinkText(): string {
    LINK_OPEN + (Tok(0) + ("\">" + (Tok(1) + "</a>")))
  }

  lemma CellWithoutCode(x: string, y: string)
    requires IsLowerWord(x) && IsLowerWord(y)
    ensures WithoutCode(LinkCell(x, y)) == LinkText() && CodeMatches(LinkCell(x, y)) == [CodeTag(x), CodeTag(y)]
  {
    hide Lift, Lifted, CodeLen, CodeTag, Tok, Without;
    NoMark(x, y);
    var tail := "</a>";
    var second := CodeTag(y) + tail;
    LiftPasses(LINK_OPEN, CodeTag(x) + ("\">" + second), 0);
    LiftsTag(x, "\">" + second, 0);
    LiftPasses("\">", second, 1);
    LiftsTag(y, tail, 1);
    LiftsEnd(2);
    assert [CodeTag(x)] + ([CodeTag(y)] + []) == [CodeTag(x), CodeTag(y)];
  }

  lemma LiftsEnd(next: nat)
    ensures Lift(MARK, "</a>", CodeLen, next) == "</a>" && Lifted("</a>", CodeLen) == []
  {
    hide Lift, Lifted, CodeLen;
    LiftPasses("</a>", [], next);
    assert "</a>" + [] == "</a>";
    LiftNothing(MARK, CodeLen);
  }

  lemma NoMark(x: string, y: string)
    requires IsLowerWord(x) && IsLowerWord(y)
    ensures Without(LinkCell(x, y), MARK) == LinkCell(x, y)
  {
    assert MARK !in LINK_OPEN && MARK !in CodeTag(x) && MARK !in CodeTag(y) && MARK !in "\">" && MARK !in "</a>";
    hide CodeTag;
    assert MARK !in LinkCell(x, y);
  }

  // ------------------------------------------------------- the link's match

  lemma CharStarts(c: char)
    ensures StartsWith(Exactly([c]), c)
  {
  }

  lemma TokShape(n: nat)
    requires n < 2
    ensures Tok(n) == [MARK, if n == 0 then '0' else '1', MARK]
  {
    assert Decimal(n) == [DigitChar(n)];
  }

  lemma FindChar(pre: string, c: char, rest: string)
    requires c !in pre
    ensures Find(pre + ([c] + rest), Exactly([c])) == Some(|pre|)
  {
    CharStarts(c);
    assert ([c] + rest)[..1] == [c];
    FindFrom(pre, [c] + rest, Exactly([c]), c);
  }

  lemma ValueOf(address: string)
    requires '"' !in address
    ensures ValueAt("\"" + (address + "\"")) == Some(Range(1, |address| + 1))
  {
    hide Find;
    var u := "\"" + (address + "\"");
    assert u[1..] == address + (['"'] + []);
    FindChar(address, '"', []);
  }

  lemma HrefAtOf(u: string)
    requires u != [] && IsQuote(u[0])
    ensures HrefAt("href=" + u) == Shifted(ValueAt(u), 5)
  {
    hide ValueAt, MatchesAt;
    var s := "href=" + u;
    assert s[4..] == "=" + u && ("=" + u)[1..] == u;
    assert TrimStart("=" + u) == "=" + u && TrimStart(u) == u;
    SpellsHref(u);
  }

  lemma SpellsHref(u: string)
    ensures MatchesAt("href=" + u, 0, "href") && !MatchesAt(" href=" + u, 0, "href")
  {
    Mismatch(" href=" + u, 0, "href", 0);
  }

  /** `href="..."` as it stands behind the tag's name. */
  lemma AddressOf(address: string)
    requires '"' !in address
    ensures Href(" href=" + ("\"" + (address + "\""))) == Some(Range(7, 7 + |address|))
  {
    hide Href, HrefAt, ValueAt;
    var u := "\"" + (address + "\"");
    ValueOf(address);
    HrefAtOf(u);
    NoHrefAt(u);
    HrefParts(" href=" + u);
    HrefParts("href=" + u);
    assert (" href=" + u)[1..] == "href=" + u;
  }

  lemma HrefParts(s: string)
    requires s != []
    ensures Href(s) == if HrefAt(s).Some? then HrefAt(s) else Shifted(Href(s[1..]), 1)
  {
    hide HrefAt;
  }

  lemma NoHrefAt(u: string)
    ensures HrefAt(" href=" + u).None?
  {
    SpellsHref(u);
  }

  /** A link with these attributes and this text, whatever follows. */
  lemma LinkOf(attrs: string, text: string, rest: string)
    requires attrs != [] && attrs[0] == ' ' && '>' !in attrs && '<' !in text
    ensures var from := |attrs| + 3;
            LinkAt("<a" + (attrs + (">" + (text + ("</a>" + rest))))) ==
            Some(Link(from + |text| + 4, Range(from, from + |text|), Shifted(Href(attrs), 2)))
  {
    hide *;
    var end := "</a>" + rest;
    var tail := text + end;
    var behind := attrs + (">" + tail);
    assert Opened("<a" + behind, behind, attrs, tail, end, |attrs|, |text|) by { LinkParts(attrs, text, rest); }
    assert Find(behind, Exactly(">")) == Some(|attrs|) by { FindsBracket(attrs, tail); }
    assert Find(tail, Spaced("</a")) == Some(|text|) by { FindsEnd(text, rest); }
    assert SpacedLen(end, "</a") == 4 by { EndOfLink(rest); }
    LinkAtIs("<a" + behind, behind, attrs, tail, end, |attrs|, |text|);
  }

  lemma FindsBracket(pre: string, rest: string)
    requires '>' !in pre
    ensures Find(pre + (">" + rest), Exactly(">")) == Some(|pre|)
  {
    hide Find;
    FindChar(pre, '>', rest);
    assert ['>'] == ">";
  }

  lemma SpaceIsNoWord()
    ensures !IsWordChar(' ')
  {
  }

  lemma FindsEnd(text: string, rest: string)
    requires '<' !in text
    ensures Find(text + ("</a>" + rest), Spaced("</a")) == Some(|text|)
  {
    hide Find, SpacedLen, StartsWith, Spaced;
    EndOfLink(rest);
    SpacedIs("</a>" + rest, "</a");
    FindFrom(text, "</a>" + rest, Spaced("</a"), '<');
  }

  lemma SpacedIs(s: string, prefix: string)
    ensures Spaced(prefix)(s) == SpacedLen(s, prefix)
  {
  }

  /** w opens an anchor: its attributes are k long, its text j, and these are the rests behind them. */
  predicate Opened(w: string, behind: string, attrs: string, tail: string, end: string, k: nat, j: nat) {
    && k + 3 + j <= |w| && w[2..] == behind && w[2..k + 2] == attrs && w[k + 3..] == tail && w[k + 3 + j..] == end
    && MatchesAt(w, 0, "<a") && !IsWordChar(w[2])
  }

  lemma LinkAtIs(w: string, behind: string, attrs: string, tail: string, end: string, k: nat, j: nat)
    requires Opened(w, behind, attrs, tail, end, k, j)
    requires Find(behind, Exactly(">")) == Some(k) && Find(tail, Spaced("</a")) == Some(j)
    ensures LinkAt(w) == Some(Link(k + 3 + j + SpacedLen(end, "</a"), Range(k + 3, k + 3 + j),
                                   Shifted(Href(attrs), 2)))
  {
    hide Href, Find, SpacedLen, MatchesAt, Exactly, Spaced;
  }

  lemma OpensLink(rest: string)
    ensures MatchesAt("<a" + rest, 0, "<a")
  {
  }

  lemma LinkParts(attrs: string, text: string, rest: string)
    requires attrs != [] && attrs[0] == ' '
    ensures var tail := text + ("</a>" + rest);
            Opened("<a" + (attrs + (">" + tail)), attrs + (">" + tail), attrs, tail, "</a>" + rest, |attrs|, |text|)
  {
    hide MatchesAt;
    SpaceIsNoWord();
    OpensLink(attrs + (">" + (text + ("</a>" + rest))));
  }

  lemma LinkFoundIn()
    ensures LinkAt(LinkText()) == Some(Link(21, Range(14, 17), Some(Range(9, 12))))
    ensures |LinkText()| == 21 && LinkText()[14..17] == Tok(1) && LinkText()[9..12] == Tok(0)
  {
    hide Href, LinkAt, Tok;
    TokShape(0);
    TokShape(1);
    var attrs := " href=" + ("\"" + (Tok(0) + "\""));
    LinkOf(attrs, Tok(1), []);
    AddressOf(Tok(0));
    assert "<a" + (attrs + (">" + (Tok(1) + ("</a>" + [])))) == LinkText();
  }

  lemma EndOfLink(rest: string)
    ensures StartsWith(Spaced("</a"), '<') && SpacedLen("</a>" + rest, "</a") == 4
  {
    forall s: string | s == [] || s[0] != '<'
      ensures SpacedLen(s, "</a") == 0
    {
      NotAt(s, "</a");
    }
    var w := "</a>" + rest;
    assert w[3..] == ">" + rest && TrimStart(">" + rest) == ">" + rest;
    assert MatchesAt(w, 0, "</a");
  }

  /** The text behind the address in the cell comes before it in what is written. */
  function Swapped(): string {
    "[" + Tok(1) + "](" + Tok(0) + ")"
  }

  lemma LinkIsSwapped()
    ensures Rewrite(LinkText(), LinkFound) == Swapped() && SomeLinkCrosses(LinkText())
  {
    hide LinkAt, Shown, Apply, SomeLinkCrosses, Rewrite;
    LinkFoundIn();
    TokShape(0);
    TokShape(1);
    var w, m := LinkText(), Link(21, Range(14, 17), Some(Range(9, 12)));
    assert w[..21] == w && w[21..] == [];
    RewriteParts(w, LinkFound);
    RewriteParts([], LinkFound);
    ApplyLink(w, m);
    assert Swapped() + [] == Swapped();
    assert Tok(1)[0] == MARK && Tok(0)[0] == MARK;
    CrossesAt(w);
  }

  // ------------------------------------------------------ the rendered cell

  lemma BodyOfTag(x: string)
    requires IsLowerWord(x)
    ensures CodeBody(CodeTag(x)) == x && EscapePipes(x) == x
  {
    var s := CodeTag(x);
    assert s[6..|s| - 7] == x && Bare(x);
    OnOneLine(x);
  }

  lemma SpellsSwapped(body: nat -> string)
    ensures Restore(MARK, Swapped(), body) == "[" + body(1) + "](" + body(0) + ")"
  {
    hide Restore, Shown;
    var rest2 := [Token(0), Char(')')];
    var rest1 := [Char(']'), Char('(')] + rest2;
    var items := [Char('['), Token(1)] + rest1;
    assert Clean(MARK, items);
    RestoreFlat(MARK, items, body);
    ShowsSwapped(items);
    SpellFive(items, body);
  }

  lemma ShowsSwapped(items: seq<Item>)
    requires items == [Char('['), Token(1), Char(']'), Char('('), Token(0), Char(')')]
    ensures Flat(MARK, items) == Swapped()
  {
    hide Flat;
    FlatFrom(items, 0);
    FlatFrom(items, 1);
    FlatFrom(items, 2);
    FlatFrom(items, 3);
    FlatFrom(items, 4);
    FlatFrom(items, 5);
    assert items[0..] == items && items[6..] == [];
    FlatParts(MARK, []);
    var a, b := Tok(1), Tok(0);
    hide Shown;
    assert ['['] + (a + ([']'] + (['('] + (b + ([')'] + []))))) == "[" + a + "](" + b + ")";
  }

  lemma FlatFrom(items: seq<Item>, k: nat)
    requires k < |items|
    ensures Flat(MARK, items[k..]) == Shown(MARK, items[k]) + Flat(MARK, items[k + 1..])
  {
    hide Flat, Shown;
    FlatParts(MARK, items[k..]);
    assert items[k..][1..] == items[k + 1..];
  }

  lemma SpellFive(items: seq<Item>, body: nat -> string)
    requires items == [Char('['), Token(1), Char(']'), Char('('), Token(0), Char(')')]
    ensures Spell(items, body) == "[" + body(1) + "](" + body(0) + ")"
  {
    hide Spell;
    SpellFrom(items, 0, body);
    SpellFrom(items, 1, body);
    SpellFrom(items, 2, body);
    SpellFrom(items, 3, body);
    SpellFrom(items, 4, body);
    SpellFrom(items, 5, body);
    assert items[0..] == items;
    var a, b := body(1), body(0);
    assert ['['] + (a + ([']'] + (['('] + (b + ([')'] + []))))) == "[" + a + "](" + b + ")";
  }

  lemma SpellFrom(items: seq<Item>, k: nat, body: nat -> string)
    requires k < |items|
    ensures Spell(items[k..], body) ==
            (if items[k].Token? then body(items[k].index) else [items[k].c]) + Spell(items[k + 1..], body)
    ensures items[|items|..] == [] && Spell([], body) == []
  {
    assert items[k..][1..] == items[k + 1..];
  }

  /** Whatever the two words: one link crosses, and the span that stood last comes out first. */
  lemma SpansSwap(x: string, y: string)
    requires IsLowerWord(x) && IsLowerWord(y)
    ensures SomeLinkCrosses(WithoutCode(LinkCell(x, y)))
    ensures RenderCell(LinkCell(x, y)) == "[`" + y + "`](`" + x + "`)"
  {
    hide Rewrite, SomeLinkCrosses, LinkText, LinkCell, CodeTag, Restore, DecodeEntities, EscapePipes, Trim, CodeBody,
        Shown;
    var html := LinkCell(x, y);
    CellWithoutCode(x, y);
    LinkIsSwapped();
    SwappedIsBare();
    NothingToRewrite(Swapped());
    OnOneLine(Swapped());
    assert Rendered(html) == Swapped();
    BodyOfTag(x);
    BodyOfTag(y);
    var body := CodeSpan(CodeBodies(html));
    assert CodeBodies(html) == [x, y];
    assert body(0) == "`" + x + "`" && body(1) == "`" + y + "`";
    SpellsSwapped(body);
    Ticks(x, y);
  }

  lemma SwappedIsBare()
    ensures Bare(Swapped())
  {
    TokShape(0);
    TokShape(1);
  }

  lemma Ticks(x: string, y: string)
    ensures "[" + ("`" + y + "`") + "](" + ("`" + x + "`") + ")" == "[`" + y + "`](`" + x + "`)"
  {
  }

  // ------------------------------------------------------------- addresses

  /** The address behind `href`, with white space around the sign: between either kind of quotes, or bare up to
      white space, a quote or the bracket. */
  lemma AddressIs(w1: string, w2: string, u: string, quote: char, rest: string)
    requires Blank(w1) && Blank(w2)
    requires IsQuote(quote) && quote !in u
    ensures var at := 5 + |w1| + |w2|;
            HrefAt("href" + (w1 + ("=" + (w2 + ([quote] + (u + ([quote] + rest)))))))
            == Some(Range(at + 1, at + 1 + |u|))
    ensures u != [] && (forall i | 0 <= i < |u| :: !IsWhite(u[i]) && !IsQuote(u[i]) && u[i] != '>') ==>
              var at := 5 + |w1| + |w2|;
              HrefAt("href" + (w1 + ("=" + (w2 + u)))) == Some(Range(at, at + |u|))
  {
    hide ValueAt, HrefAt;
    QuotedValue(u, quote, rest);
    HrefAtGap(w1, w2, [quote] + (u + ([quote] + rest)));
    if u != [] && forall i | 0 <= i < |u| :: !IsWhite(u[i]) && !IsQuote(u[i]) && u[i] != '>' {
      BareValue(u);
      HrefAtGap(w1, w2, u);
    }
  }

  lemma QuotedValue(u: string, quote: char, rest: string)
    requires IsQuote(quote) && quote !in u
    ensures ValueAt([quote] + (u + ([quote] + rest))) == Some(Range(1, |u| + 1))
  {
    hide Find;
    var s := [quote] + (u + ([quote] + rest));
    assert s[1..] == u + ([quote] + rest);
    FindChar(u, quote, rest);
  }

  lemma {:induction false} BareRunIs(u: string)
    requires forall i | 0 <= i < |u| :: !IsWhite(u[i]) && !IsQuote(u[i]) && u[i] != '>'
    ensures BareRun(u) == |u|
  {
    if u != [] { BareRunIs(u[1..]); }
  }

  lemma BareValue(u: string)
    requires u != [] && forall i | 0 <= i < |u| :: !IsWhite(u[i]) && !IsQuote(u[i]) && u[i] != '>'
    ensures ValueAt(u) == Some(Range(0, |u|))
  {
    BareRunIs(u);
  }

  lemma HrefAtGap(w1: string, w2: string, u: string)
    requires Blank(w1) && Blank(w2) && u != [] && !IsWhite(u[0])
    ensures HrefAt("href" + (w1 + ("=" + (w2 + u)))) == Shifted(ValueAt(u), 5 + |w1| + |w2|)
  {
    hide ValueAt, MatchesAt;
    var s := "href" + (w1 + ("=" + (w2 + u)));
    TrimStartPast(w1, "=" + (w2 + u));
    TrimStartPast(w2, u);
    assert s[4..] == w1 + ("=" + (w2 + u)) && ("=" + (w2 + u))[1..] == w2 + u;
    assert TrimStart("=" + (w2 + u)) == "=" + (w2 + u) && TrimStart(u) == u;
    OpensHref(w1 + ("=" + (w2 + u)));
  }

  lemma OpensHref(rest: string)
    ensures MatchesAt("href" + rest, 0, "href")
  {
  }

  /** A tag whose name only starts with an a is no link. */
  lemma LongerNameIsNoLink(c: char, rest: string)
    requires IsWordChar(c)
    ensures LinkAt("<a" + ([c] + rest)).None?
  {
    var w := "<a" + ([c] + rest);
    assert w[2] == c;
    hide Find, Href, SpacedLen;
  }

  /** An anchor without an address is its text. */
  lemma NoAddressNoLink(attrs: string, text: string, rest: string)
    requires attrs != [] && attrs[0] == ' ' && '>' !in attrs && '<' !in text && Href(attrs).None?
    ensures var w := "<a" + (attrs + (">" + (text + "</a>")));
            Rewrite(w + rest, LinkFound) == text + Rewrite(rest, LinkFound)
  {
    hide Rewrite, LinkAt, Href, Apply;
    var w := "<a" + (attrs + (">" + (text + "</a>")));
    LinkOf(attrs, text, rest);
    assert "<a" + (attrs + (">" + (text + ("</a>" + rest)))) == w + rest;
    var from := |attrs| + 3;
    var m := Link(from + |text| + 4, Range(from, from + |text|), None);
    assert |w| == m.len && w[from..from + |text|] == text;
    ApplyLink(w, m);
    RewriteAt(w, rest, LinkFound);
  }
}
