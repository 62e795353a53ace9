/** `renderCell`: one table cell as markdown. Its regular expressions, and what becomes of the code spans. */
module HtmlCell {
  import opened Text
  import opened Lines
  import opened Placeholders
  import opened Patterns
  import CacheKeys

  const MARK: char := '\U{e000}'

  // --------------------------------------------------------------- patterns

  function AnyCase(pattern: string): Matcher {
    (s: string) => if MatchesAt(s, 0, pattern) then |pattern| else 0
  }

  /** `prefix\s*>`. */
  function SpacedLen(s: string, prefix: string): nat {
    if !MatchesAt(s, 0, prefix) then 0
    else
      TrimStartShrinks(s[|prefix|..]);
      var t := TrimStart(s[|prefix|..]);
      if ">" <= t then |s| - |t| + 1 else 0
  }

  function Spaced(prefix: string): Matcher {
    (s: string) => SpacedLen(s, prefix)
  }

  /** `BREAK` at the front. */
  function BreakLen(s: string): nat {
    if !MatchesAt(s, 0, "<br") then 0
    else
      TrimStartShrinks(s[3..]);
      var t := TrimStart(s[3..]);
      if "/>" <= t then |s| - |t| + 2 else if ">" <= t then |s| - |t| + 1 else 0
  }

  /** `REMAINING_TAG` at the front: something between the brackets. */
  function TagLen(s: string): nat {
    if s == [] || s[0] != '<' then 0
    else match Find(s[1..], Exactly(">")) case None => 0 case Some(k) => if k == 0 then 0 else k + 2
  }

  const CODE_OPEN: string := "<code>"
  const CODE_CLOSE: string := "</code>"

  /** `CODE` at the front. */
  function CodeLen(s: string): nat {
    if !MatchesAt(s, 0, CODE_OPEN) then 0
    else match Find(s[6..], AnyCase(CODE_CLOSE)) case None => 0 case Some(k) => k + 13
  }

  /** What `\b` calls a word character. */
  predicate IsWordChar(c: char) {
    IsDigit(c) || 'A' <= c <= 'Z' || 'a' <= c <= 'z' || c == '_'
  }

  predicate IsQuote(c: char) {
    c == '"' || c == '\''
  }

  /** `[^\s"'>]+`, as far as it goes. */
  function BareRun(s: string): (n: nat)
    ensures n <= |s| && (n < |s| ==> IsWhite(s[n]) || IsQuote(s[n]) || s[n] == '>')
  {
    if s == [] || IsWhite(s[0]) || IsQuote(s[0]) || s[0] == '>' then 0 else 1 + BareRun(s[1..])
  }

  /** The value after `href\s*=\s*`, quoted either way or bare. */
  function ValueAt(s: string): Option<Range> {
    if s == [] then None
    else if IsQuote(s[0]) then
      match Find(s[1..], Exactly([s[0]])) case None => None case Some(k) => Some(Range(1, k + 1))
    else if BareRun(s) == 0 then None
    else Some(Range(0, BareRun(s)))
  }

  function Shifted(r: Option<Range>, k: nat): Option<Range> {
    match r case None => None case Some(v) => Some(Range(v.from + k, v.to + k))
  }

  /** `HREF_ATTR` at the front: where the address stands. */
  function HrefAt(s: string): Option<Range> {
    if !MatchesAt(s, 0, "href") then None
    else
      TrimStartShrinks(s[4..]);
      var t := TrimStart(s[4..]);
      if t == [] || t[0] != '=' then None
      else
        TrimStartShrinks(t[1..]);
        var u := TrimStart(t[1..]);
        Shifted(ValueAt(u), |s| - |u|)
  }

  /** `HREF_ATTR.exec`: the first place it matches. */
  function Href(attrs: string): Option<Range> {
    if HrefAt(attrs).Some? || attrs == [] then HrefAt(attrs) else Shifted(Href(attrs[1..]), 1)
  }

  /** A match of `LINK`: its length, where its text stands and, if it has one, its address. */
  datatype Link = Link(len: nat, text: Range, href: Option<Range>)

  /** `LINK` at the front. */
  function LinkAt(s: string): Option<Link> {
    if !MatchesAt(s, 0, "<a") then None
    else
      match Find(s[2..], Exactly(">"))
      case None => None
      case Some(k) =>
        if IsWordChar(s[2]) then None
        else
          var from := k + 3;
          match Find(s[from..], Spaced("</a"))
          case None => None
          case Some(j) =>
            var to := from + j;
            Some(Link(to + SpacedLen(s[to..], "</a"), Range(from, to), Shifted(Href(s[2..k + 2]), 2)))
  }

  // ------------------------------------------------------------- rewriting

  /** `linkReplacer`. */
  function LinkEdit(m: Link): Edit {
    match m.href
    case None => [Kept(m.text.from, m.text.to)]
    case Some(href) => [Literal("["), Kept(m.text.from, m.text.to), Literal("]("), Kept(href.from, href.to),
        Literal(")")]
  }

  function LinkFound(s: string): Option<Found> {
    match LinkAt(s) case None => None case Some(m) => Some(Found(m.len, LinkEdit(m)))
  }

  function EmphasisTag(s: string): string {
    if MatchesAt(s, 0, "<strong>") then "strong" else if MatchesAt(s, 0, "<b>") then "b" else []
  }

  /** `EMPHASIS` at the front, closed by the tag it was opened with. */
  function EmphasisFound(s: string): Option<Found> {
    var tag := EmphasisTag(s);
    if tag == [] then None
    else
      var from, close := |tag| + 2, "</" + tag + ">";
      match Find(s[from..], AnyCase(close))
      case None => None
      case Some(k) => Some(Found(from + k + |close|, [Literal("**"), Kept(from, from + k), Literal("**")]))
  }

  function DecodeEntities(s: string): string {
    var a := Rewrite(s, Put(Exactly("&#123;"), "{"));
    var b := Rewrite(a, Put(Exactly("&#125;"), "}"));
    var c := Rewrite(b, Put(Exactly("&#124;"), "|"));
    var d := Rewrite(c, Put(Exactly("&lt;"), "<"));
    var e := Rewrite(d, Put(Exactly("&gt;"), ">"));
    var f := Rewrite(e, Put(Exactly("&amp;"), "&"));
    Rewrite(f, Put(Exactly("&quot;"), "\""))
  }

  /** `replace(/\|/g, '\\|')`. */
  function EscapePipes(s: string): string {
    if s == [] then [] else (if s[0] == '|' then "\\|" else [s[0]]) + EscapePipes(s[1..])
  }

  // ------------------------------------------------------------------ cells

  function CodeMatches(html: string): seq<string> {
    Lifted(Without(html, MARK), CodeLen)
  }

  /** What the callback pushes for one match: the code between the tags, decoded, on one line. */
  function CodeBody(match_: string): string {
    if |match_| < 13 then [] else Trim(CacheKeys.Collapse(DecodeEntities(match_[6..|match_| - 7])))
  }

  function CodeBodies(html: string): seq<string> {
    seq(|CodeMatches(html)|, i requires 0 <= i < |CodeMatches(html)| => CodeBody(CodeMatches(html)[i]))
  }

  /** What a token becomes. */
  function CodeSpan(bodies: seq<string>): nat -> string {
    (n: nat) => if n < |bodies| then "`" + EscapePipes(bodies[n]) + "`" else []
  }

  function WithoutCode(html: string): string {
    Lift(MARK, Without(html, MARK), CodeLen, 0)
  }

  function Linked(html: string): string {
    Rewrite(WithoutCode(html), LinkFound)
  }

  function Untagged(html: string): string {
    Rewrite(Rewrite(Rewrite(Linked(html), EmphasisFound), Put(BreakLen, " ")), Put(TagLen, ""))
  }

  /** The cell as it is just before the lookup. */
  function Rendered(html: string): string {
    Trim(EscapePipes(CacheKeys.Collapse(DecodeEntities(Untagged(html)))))
  }

  function RenderCell(html: string): string {
    Restore(MARK, Rendered(html), CodeSpan(CodeBodies(html)))
  }

  /** What a cell may not do to its row: break the line, or end the cell. */
  predicate FitsInCell(s: string) {
    && (forall i | 0 <= i < |s| && IsWhite(s[i]) :: s[i] == ' ')
    && PipesEscaped(s)
  }

  /** Every pipe has a backslash before it. */
  predicate PipesEscaped(s: string) {
    forall i | 0 <= i < |s| && s[i] == '|' :: i > 0 && s[i - 1] == '\\'
  }

  lemma {:induction false} CollapseIsFlat(s: string)
    ensures forall i | 0 <= i < |CacheKeys.Collapse(s)| && IsWhite(CacheKeys.Collapse(s)[i]) ::
        CacheKeys.Collapse(s)[i] == ' '
    decreases |s|
  {
    TrimStartShrinks(s);
    if s != [] {
      CollapseIsFlat(if IsWhite(s[0]) then TrimStart(s) else s[1..]);
    }
  }

  lemma {:induction false} EscapeFits(s: string)
    requires forall i | 0 <= i < |s| && IsWhite(s[i]) :: s[i] == ' '
    ensures FitsInCell(EscapePipes(s))
    ensures EscapePipes(s) != [] ==> EscapePipes(s)[0] != '|'
  {
    if s != [] {
      EscapeFits(s[1..]);
    }
  }

  lemma TrimFits(s: string)
    requires FitsInCell(s)
    ensures FitsInCell(Trim(s))
  {
    var lo, hi := TrimShape(s);
    assert lo < hi ==> !IsWhite(s[lo]);
    assert forall i | 0 <= i < |Trim(s)| :: Trim(s)[i] == s[lo + i];
    assert lo > 0 ==> IsWhite(s[lo - 1]);
  }

  /** As PipesEscaped, for a text that follows another one. */
  predicate PipesAfter(backslash: bool, s: string)
    decreases s
  {
    s == [] || ((s[0] == '|' ==> backslash) && PipesAfter(s[0] == '\\', s[1..]))
  }

  predicate PipesAt(backslash: bool, s: string) {
    && (s != [] && s[0] == '|' ==> backslash)
    && forall i | 0 < i < |s| && s[i] == '|' :: s[i - 1] == '\\'
  }

  lemma {:induction false} PipesAfterIff(backslash: bool, s: string)
    ensures PipesAfter(backslash, s) <==> PipesAt(backslash, s)
    decreases s
  {
    if s != [] {
      var t := s[1..];
      PipesAfterIff(s[0] == '\\', t);
      assert forall i | 0 <= i < |t| :: t[i] == s[i + 1];
      forall i | 0 < i < |s| && s[i] == '|' && PipesAt(s[0] == '\\', t)
        ensures s[i - 1] == '\\'
      {
        assert t[i - 1] == '|';
        assert i > 1 ==> t[i - 2] == '\\';
      }
    }
  }

  predicate SpacesOnly(s: string) {
    forall i | 0 <= i < |s| && IsWhite(s[i]) :: s[i] == ' '
  }

  lemma {:induction false} PipesConcat(backslash: bool, a: string, b: string)
    requires PipesAfter(backslash, a) && PipesAfter(if a == [] then backslash else a[|a| - 1] == '\\', b)
    ensures PipesAfter(backslash, a + b)
    decreases a
  {
    if a == [] {
      assert a + b == b;
    } else {
      assert (a + b)[1..] == a[1..] + b;
      PipesConcat(a[0] == '\\', a[1..], b);
    }
  }

  lemma {:induction false} PipesDrop(backslash: bool, s: string, k: nat)
    requires 0 < k <= |s| && PipesAfter(backslash, s)
    ensures PipesAfter(s[k - 1] == '\\', s[k..])
    decreases k
  {
    if k > 1 {
      PipesDrop(s[0] == '\\', s[1..], k - 1);
      assert s[1..][k - 1..] == s[k..];
    }
  }

  lemma PipesWeaken(backslash: bool, s: string)
    requires PipesAfter(false, s)
    ensures PipesAfter(backslash, s)
  {
  }

  /** Restoring spans that fit a cell, in a text that does, gives a text that does. */
  lemma {:induction false} RestoreFits(s: string, body: nat -> string, backslash: bool)
    requires SpacesOnly(s) && PipesAfter(backslash, s)
    requires forall n :: SpacesOnly(body(n)) && PipesAfter(false, body(n))
    ensures SpacesOnly(Restore(MARK, s, body)) && PipesAfter(backslash, Restore(MARK, s, body))
    decreases |s|
  {
    hide IsWhite, DecimalValue;
    if s == [] {
      return;
    }
    var n := TokenAt(MARK, s);
    if n > 0 {
      var rest, first := s[n + 2..], body(DecimalValue(s[1..n + 1]));
      PipesDrop(backslash, s, n + 2);
      RestoreFits(rest, body, false);
      PipesWeaken(backslash, first);
      PipesWeaken(if first == [] then backslash else first[|first| - 1] == '\\', Restore(MARK, rest, body));
      PipesConcat(backslash, first, Restore(MARK, rest, body));
    } else {
      RestoreFits(s[1..], body, s[0] == '\\');
      PipesConcat(backslash, [s[0]], Restore(MARK, s[1..], body));
    }
  }

  lemma CodeSpanFits(bodies: seq<string>, n: nat)
    requires n < |bodies| ==> SpacesOnly(bodies[n])
    ensures SpacesOnly(CodeSpan(bodies)(n)) && PipesAfter(false, CodeSpan(bodies)(n))
  {
    if n < |bodies| {
      EscapeFits(bodies[n]);
      var inside := EscapePipes(bodies[n]);
      assert FitsInCell("`" + inside + "`") by {
        assert forall i | 0 < i <= |inside| :: ("`" + inside + "`")[i] == inside[i - 1];
      }
    }
    PipesAfterIff(false, CodeSpan(bodies)(n));
  }

  lemma CodeBodyIsFlat(m: string)
    ensures SpacesOnly(CodeBody(m))
  {
    if |m| >= 13 {
      var t := CacheKeys.Collapse(DecodeEntities(m[6..|m| - 7]));
      CollapseIsFlat(DecodeEntities(m[6..|m| - 7]));
      var lo, hi := TrimShape(t);
      assert forall i | 0 <= i < |Trim(t)| :: Trim(t)[i] == t[lo + i];
    }
  }

  lemma SpansFit(html: string)
    ensures forall n: nat ::
              SpacesOnly(CodeSpan(CodeBodies(html))(n)) && PipesAfter(false, CodeSpan(CodeBodies(html))(n))
  {
    var matches, bodies := CodeMatches(html), CodeBodies(html);
    hide CodeSpan, CodeBody, SpacesOnly, PipesAfter, CodeMatches;
    forall n: nat
      ensures SpacesOnly(CodeSpan(bodies)(n)) && PipesAfter(false, CodeSpan(bodies)(n))
    {
      if n < |bodies| { CodeBodyIsFlat(matches[n]); }
      CodeSpanFits(bodies, n);
    }
  }

  lemma FitsIff(s: string)
    ensures FitsInCell(s) <==> SpacesOnly(s) && PipesAfter(false, s)
  {
    PipesAfterIff(false, s);
  }

  /** Whatever the cell holds, it stays on one line and cannot end its cell. */
  lemma CellFits(html: string)
    ensures FitsInCell(RenderCell(html))
  {
    hide IsWhite, DecodeEntities, Untagged, EscapePipes, Trim, Restore, CodeSpan, CodeBodies, PipesAfter, FitsInCell;
    var decoded := DecodeEntities(Untagged(html));
    var text := CacheKeys.Collapse(decoded);
    CollapseIsFlat(decoded);
    EscapeFits(text);
    TrimFits(EscapePipes(text));
    FitsIff(Rendered(html));
    SpansFit(html);
    RestoreFits(Rendered(html), CodeSpan(CodeBodies(html)), false);
    FitsIff(RenderCell(html));
  }

  // ------------------------------------------ what happens to the code spans

  /** t shows these items; their tokens are some of the source's, in the order they had there. */
  ghost predicate ShowsFrom(items: seq<Item>, source: seq<Item>, t: string) {
    Clean(MARK, items) && Flat(MARK, items) == t && Subsequence(TokensOf(items), TokensOf(source))
  }

  lemma ShowsSame(items: seq<Item>)
    requires Clean(MARK, items)
    ensures ShowsFrom(items, items, Flat(MARK, items))
  {
    hide Subsequence, Flat;
    TokensOfSlice(items, 0, |items|);
    assert items[0..|items|] == items;
  }

  /** What shows the front and what shows the rest show the whole. */
  lemma ShowsJoin(first: seq<Item>, s: string, rest: seq<Item>, t: string, source: seq<Item>, a: nat)
    requires a <= |source| && ShowsFrom(first, source[..a], s) && ShowsFrom(rest, source[a..], t)
    ensures ShowsFrom(first + rest, source, s + t)
  {
    hide Subsequence, Flat, TokensOf;
    FlatConcat(MARK, first, rest);
    TokensConcat(first, rest);
    TokensConcat(source[..a], source[a..]);
    assert source[..a] + source[a..] == source;
    SubsequenceConcat(TokensOf(first), TokensOf(source[..a]), TokensOf(rest), TokensOf(source[a..]));
  }

  lemma ShowsChars(text: string, source: seq<Item>)
    requires MARK !in text
    ensures ShowsFrom(Chars(text), source, text)
  {
    FlatChars(MARK, text);
    NoTokens(Chars(text));
    SubsequenceSlice(TokensOf(source), 0, 0);
  }

  lemma ShowsOne(source: seq<Item>)
    requires source != [] && Clean(MARK, source)
    ensures ShowsFrom([source[0]], source[..1], Shown(MARK, source[0]))
  {
    hide Subsequence, TokensOf;
    FlatParts(MARK, [source[0]]);
    assert source[..1] == [source[0]] && [source[0]][1..] == [];
    ShowsSame([source[0]]);
  }

  /** A match starts and ends on characters no token contains, and keeps what safe cuts delimit. */
  predicate SafeFound(s: string, m: Found)
    requires 0 < m.len <= |s|
  {
    !TokenChar(MARK, s[0]) && !TokenChar(MARK, s[m.len - 1]) && ValidEdit(MARK, s[..m.len], m.edit)
  }

  ghost predicate Careful(f: Rewriter) {
    forall s: string | Matches(s, f) :: SafeFound(s, f(s).value)
  }

  ghost predicate KeepsOne(f: Rewriter) {
    forall s: string | Matches(s, f) :: KeptCount(f(s).value.edit) <= 1
  }

  lemma {:induction false} SkipsTokenChars(pre: string, rest: string, f: Rewriter)
    requires Careful(f) && forall i | 0 <= i < |pre| :: TokenChar(MARK, pre[i])
    ensures Rewrite(pre + rest, f) == pre + Rewrite(rest, f)
  {
    if pre == [] {
      assert pre + rest == rest;
      assert pre + Rewrite(rest, f) == Rewrite(rest, f);
    } else {
      assert (pre + rest)[1..] == pre[1..] + rest;
      SkipsTokenChars(pre[1..], rest, f);
      assert pre == [pre[0]] + pre[1..];
    }
  }

  /** Where nothing matches, one item is passed over. */
  lemma ItemPasses(items: seq<Item>, f: Rewriter)
    requires items != [] && Careful(f) && !Matches(Flat(MARK, items), f)
    ensures Rewrite(Flat(MARK, items), f) == Shown(MARK, items[0]) + Rewrite(Flat(MARK, items[1..]), f)
  {
    var rest := Flat(MARK, items[1..]);
    FlatParts(MARK, items);
    ShownIsTokenChars(MARK, items[0]);
    if items[0].Token? {
      SkipsTokenChars(Shown(MARK, items[0]), rest, f);
    } else {
      hide Careful;
      RewriteParts(Flat(MARK, items), f);
      assert Flat(MARK, items)[1..] == rest;
    }
  }

  /** The items of a match, and what takes their place. */
  lemma RewriteMatch(items: seq<Item>, f: Rewriter) returns (a: nat, first: seq<Item>)
    requires Clean(MARK, items) && Careful(f) && KeepsOne(f) && Matches(Flat(MARK, items), f)
    ensures var s, m := Flat(MARK, items), f(Flat(MARK, items)).value;
            && 0 < a <= |items| && Flat(MARK, items[a..]) == s[m.len..]
            && ShowsFrom(first, items[..a], Apply(s[..m.len], m.edit))
  {
    hide Flat, ValidEdit, Apply, Subsequence, TokensOf, KeptCount;
    var s := Flat(MARK, items);
    var m := f(s).value;
    a := SafeCut(MARK, items, m.len);
    FlatParts(MARK, items[..0]);
    assert items[..0] == [] && a > 0;
    first := EditKeepsTokens(MARK, items[..a], m.edit);
  }

  lemma {:induction false} RewriteItems(items: seq<Item>, f: Rewriter) returns (out: seq<Item>)
    requires Clean(MARK, items) && Careful(f) && KeepsOne(f)
    ensures ShowsFrom(out, items, Rewrite(Flat(MARK, items), f))
    decreases |items|
  {
    hide Flat, Rewrite, Careful, KeepsOne, ShowsFrom, Apply;
    var s := Flat(MARK, items);
    FlatParts(MARK, items);
    RewriteParts(s, f);
    if items == [] {
      out := [];
      ShowsSame([]);
    } else if Matches(s, f) {
      var a, first := RewriteMatch(items, f);
      var rest := RewriteItems(items[a..], f);
      ShowsJoin(first, Apply(s[..f(s).value.len], f(s).value.edit), rest, Rewrite(s[f(s).value.len..], f), items, a);
      out := first + rest;
    } else {
      var rest := RewriteItems(items[1..], f);
      ItemPasses(items, f);
      ShowsOne(items);
      ShowsJoin([items[0]], Shown(MARK, items[0]), rest, Rewrite(Flat(MARK, items[1..]), f), items, 1);
      out := [items[0]] + rest;
    }
  }

  lemma {:induction false} CollapseItems(items: seq<Item>) returns (out: seq<Item>)
    requires Clean(MARK, items)
    ensures ShowsFrom(out, items, CacheKeys.Collapse(Flat(MARK, items)))
    decreases |items|
  {
    hide Flat, ShowsFrom;
    FlatParts(MARK, items);
    if items == [] {
      out := [];
      ShowsSame([]);
      return;
    }
    var s := Flat(MARK, items);
    if IsWhite(s[0]) {
      var k := TrimStartShape(s);
      var a := SafeCut(MARK, items, k);
      FlatParts(MARK, items[..0]);
      assert items[..0] == [] && a > 0;
      var rest := CollapseItems(items[a..]);
      ShowsChars(" ", items[..a]);
      ShowsJoin(Chars(" "), " ", rest, CacheKeys.Collapse(s[k..]), items, a);
      out := Chars(" ") + rest;
    } else {
      var after := Flat(MARK, items[1..]);
      var rest := CollapseItems(items[1..]);
      ShowsOne(items);
      ShowsJoin([items[0]], Shown(MARK, items[0]), rest, CacheKeys.Collapse(after), items, 1);
      ShownIsTokenChars(MARK, items[0]);
      CacheKeys.CollapseWord(Shown(MARK, items[0]), after);
      out := [items[0]] + rest;
    }
  }

  lemma {:induction false} EscapeConcat(a: string, b: string)
    ensures EscapePipes(a + b) == EscapePipes(a) + EscapePipes(b)
  {
    if a == [] {
      assert a + b == b;
    } else {
      assert (a + b)[1..] == a[1..] + b;
      EscapeConcat(a[1..], b);
    }
  }

  /** One backslash before every pipe, and nothing else. */
  lemma EscapedPipe(a: string, b: string)
    requires '|' !in a
    ensures EscapePipes(a + ("|" + b)) == a + ("\\|" + EscapePipes(b))
  {
    EscapeConcat(a, "|" + b);
    EscapeNothing(a);
    assert ("|" + b)[1..] == b;
  }

  lemma {:induction false} EscapeNothing(a: string)
    requires '|' !in a
    ensures EscapePipes(a) == a
  {
    if a != [] { EscapeNothing(a[1..]); }
  }

  lemma {:induction false} EscapeItems(items: seq<Item>) returns (out: seq<Item>)
    requires Clean(MARK, items)
    ensures ShowsFrom(out, items, EscapePipes(Flat(MARK, items)))
  {
    hide Flat, ShowsFrom;
    FlatParts(MARK, items);
    if items == [] {
      out := [];
      ShowsSame([]);
      return;
    }
    var after, shown := Flat(MARK, items[1..]), Shown(MARK, items[0]);
    var rest := EscapeItems(items[1..]);
    EscapeConcat(shown, after);
    if items[0] == Char('|') {
      ShowsChars("\\|", items[..1]);
      EscapeConcat("|", []);
      assert EscapePipes("|") == "\\|";
      ShowsJoin(Chars("\\|"), "\\|", rest, EscapePipes(after), items, 1);
      out := Chars("\\|") + rest;
    } else {
      ShownIsTokenChars(MARK, items[0]);
      EscapeNothing(shown);
      ShowsOne(items);
      ShowsJoin([items[0]], shown, rest, EscapePipes(after), items, 1);
      out := [items[0]] + rest;
    }
  }

  lemma TrimItems(items: seq<Item>) returns (out: seq<Item>)
    requires Clean(MARK, items)
    ensures ShowsFrom(out, items, Trim(Flat(MARK, items)))
  {
    hide Flat, TokensOf, Subsequence;
    var s := Flat(MARK, items);
    var lo, hi := TrimShape(s);
    assert lo > 0 && hi < |s| ==> IsWhite(s[lo - 1]) && IsWhite(s[hi]);
    if lo == hi {
      out := [];
      ShowsChars([], items);
      assert Chars([]) == [];
    } else {
      var a, b := SafeSlice(MARK, items, lo, hi);
      TokensOfSlice(items, a, b);
      out := items[a..b];
    }
  }

  // ------------------------------------------------- the patterns are careful

  lemma PutIsCareful(len: Matcher, put: string)
    requires MARK !in put
    requires forall s: string | 0 < len(s) <= |s| :: !TokenChar(MARK, s[0]) && !TokenChar(MARK, s[len(s) - 1])
    ensures Careful(Put(len, put)) && KeepsOne(Put(len, put))
  {
    var f := Put(len, put);
    forall s: string | Matches(s, f)
      ensures SafeFound(s, f(s).value) && KeptCount(f(s).value.edit) == 0
    {
      assert f(s).value.edit[1..] == [];
    }
  }

  lemma EntityIsCareful(pattern: string, put: string)
    requires pattern != [] && pattern[0] == '&' && pattern[|pattern| - 1] == ';' && MARK !in put
    ensures Careful(Put(Exactly(pattern), put)) && KeepsOne(Put(Exactly(pattern), put))
  {
    PutIsCareful(Exactly(pattern), put);
  }

  lemma DecodeItems(items: seq<Item>) returns (out: seq<Item>)
    requires Clean(MARK, items)
    ensures ShowsFrom(out, items, DecodeEntities(Flat(MARK, items)))
  {
    hide Rewrite, Flat, Exactly, Put, Careful, KeepsOne, Subsequence, TokensOf;
    EntityIsCareful("&#123;", "{");
    var a := RewriteItems(items, Put(Exactly("&#123;"), "{"));
    EntityIsCareful("&#125;", "}");
    var b := RewriteItems(a, Put(Exactly("&#125;"), "}"));
    EntityIsCareful("&#124;", "|");
    var c := RewriteItems(b, Put(Exactly("&#124;"), "|"));
    EntityIsCareful("&lt;", "<");
    var d := RewriteItems(c, Put(Exactly("&lt;"), "<"));
    EntityIsCareful("&gt;", ">");
    var e := RewriteItems(d, Put(Exactly("&gt;"), ">"));
    EntityIsCareful("&amp;", "&");
    var f := RewriteItems(e, Put(Exactly("&amp;"), "&"));
    EntityIsCareful("&quot;", "\"");
    out := RewriteItems(f, Put(Exactly("&quot;"), "\""));
    SubsequenceTrans(TokensOf(b), TokensOf(a), TokensOf(items));
    SubsequenceTrans(TokensOf(c), TokensOf(b), TokensOf(items));
    SubsequenceTrans(TokensOf(d), TokensOf(c), TokensOf(items));
    SubsequenceTrans(TokensOf(e), TokensOf(d), TokensOf(items));
    SubsequenceTrans(TokensOf(f), TokensOf(e), TokensOf(items));
    SubsequenceTrans(TokensOf(out), TokensOf(f), TokensOf(items));
  }

  lemma BreakIsCareful()
    ensures Careful(Put(BreakLen, " ")) && KeepsOne(Put(BreakLen, " "))
  {
    forall s: string | 0 < BreakLen(s) <= |s|
      ensures s[0] == '<' && s[BreakLen(s) - 1] == '>'
    {
      var k := TrimStartShape(s[3..]);
      assert TrimStart(s[3..]) == s[3 + k..];
      assert LowerAscii(s[0 + 0]) == "<br"[0];
    }
    PutIsCareful(BreakLen, " ");
  }

  lemma TagIsCareful()
    ensures Careful(Put(TagLen, "")) && KeepsOne(Put(TagLen, ""))
  {
    forall s: string | 0 < TagLen(s) <= |s|
      ensures s[0] == '<' && s[TagLen(s) - 1] == '>'
    {
      var k := Find(s[1..], Exactly(">")).value;
      assert s[1..][k..] == s[k + 1..];
    }
    PutIsCareful(TagLen, "");
  }

  lemma AnyCaseEnds(s: string, pattern: string)
    requires pattern != [] && MatchesAt(s, 0, pattern)
    ensures |pattern| <= |s|
    ensures LowerAscii(s[0]) == pattern[0] && LowerAscii(s[|pattern| - 1]) == pattern[|pattern| - 1]
  {
    assert LowerAscii(s[0 + 0]) == pattern[0];
    assert LowerAscii(s[0 + (|pattern| - 1)]) == pattern[|pattern| - 1];
  }

  lemma Mismatch(s: string, i: nat, pattern: string, k: nat)
    requires k < |pattern| && i + k < |s| && LowerAscii(s[i + k]) != pattern[k]
    ensures !MatchesAt(s, i, pattern)
  {
  }

  lemma TagStands(s: string)
    requires EmphasisTag(s) != []
    ensures var n := |EmphasisTag(s)| + 2; n <= |s| && s[0] == '<' && s[n - 1] == '>'
  {
    AnyCaseEnds(s, if MatchesAt(s, 0, "<strong>") then "<strong>" else "<b>");
  }

  lemma EmphasisShape(s: string)
    requires EmphasisFound(s).Some?
    ensures var m := EmphasisFound(s).value;
            && 0 < m.len <= |s| && s[0] == '<' && s[m.len - 1] == '>' && |m.edit| == 3
            && m.edit[0] == m.edit[2] == Literal("**") && m.edit[1].Kept?
            && m.edit[1].from <= m.edit[1].to < m.len && s[m.edit[1].to] == '<'
            && m.edit[1].from > 0 && s[m.edit[1].from - 1] == '>'
  {
    hide MatchesAt, LowerAscii, EmphasisTag, Find;
    TagStands(s);
    LowerOfBracket();
    var tag := EmphasisTag(s);
    var close := "</" + tag + ">";
    var from := |tag| + 2;
    var k := Find(s[from..], AnyCase(close)).value;
    assert s[from..][k..] == s[from + k..];
    AnyCaseEnds(s[from + k..], close);
  }

  lemma KeptOfThree(a: string, piece: Piece, b: string)
    ensures KeptCount([Literal(a), piece, Literal(b)]) <= 1
  {
    var last, two, three := [Literal(b)], [piece, Literal(b)], [Literal(a), piece, Literal(b)];
    assert last[1..] == [] && two[1..] == last && three[1..] == two;
    assert KeptCount([]) == 0;
    assert KeptCount(last) == 0 + KeptCount(last[1..]);
    assert KeptCount(two) == (if piece.Kept? then 1 else 0) + KeptCount(two[1..]);
    assert KeptCount(three) == 0 + KeptCount(three[1..]);
  }

  lemma EmphasisIsSafe(s: string)
    requires Matches(s, EmphasisFound)
    ensures SafeFound(s, EmphasisFound(s).value) && KeptCount(EmphasisFound(s).value.edit) <= 1
  {
    hide EmphasisFound, KeptCount;
    EmphasisShape(s);
    var m := EmphasisFound(s).value;
    var t := s[..m.len];
    assert ValidPiece(MARK, t, m.edit[1]) by {
      assert t[m.edit[1].to] == '<' && t[m.edit[1].from - 1] == '>';
    }
    assert m.edit == [Literal("**"), m.edit[1], Literal("**")];
    KeptOfThree("**", m.edit[1], "**");
  }

  lemma EmphasisIsCareful()
    ensures Careful(EmphasisFound) && KeepsOne(EmphasisFound)
  {
    hide EmphasisFound, KeptCount, SafeFound;
    forall s: string | Matches(s, EmphasisFound)
      ensures SafeFound(s, EmphasisFound(s).value) && KeptCount(EmphasisFound(s).value.edit) <= 1
    {
      EmphasisIsSafe(s);
    }
  }

  // ------------------------------------------------------------------ links

  /** Where an address stands: what is next to it is no character of a token. */
  predicate SafeRange(s: string, r: Range) {
    && 0 < r.from <= r.to <= |s| && !TokenChar(MARK, s[r.from - 1])
    && (r.to < |s| ==> !TokenChar(MARK, s[r.to]))
  }

  lemma ValueShape(s: string)
    requires ValueAt(s).Some?
    ensures var r := ValueAt(s).value;
            && r.from <= r.to <= |s| && (r.from > 0 ==> IsQuote(s[r.from - 1]))
            && (r.to < |s| ==> IsWhite(s[r.to]) || IsQuote(s[r.to]) || s[r.to] == '>')
  {
    if IsQuote(s[0]) {
      var k := Find(s[1..], Exactly([s[0]])).value;
      assert s[1..][k..] == s[k + 1..];
    }
  }

  lemma AfterWhite(s: string, from: nat) returns (p: nat)
    requires from <= |s|
    ensures from <= p <= |s| && TrimStart(s[from..]) == s[p..]
    ensures p > from ==> IsWhite(s[p - 1])
  {
    var k := TrimStartShape(s[from..]);
    p := from + k;
    assert s[from..][k..] == s[p..];
    assert k > 0 ==> s[from..][k - 1] == s[p - 1];
  }

  lemma HrefAtShape(s: string)
    requires HrefAt(s).Some?
    ensures SafeRange(s, HrefAt(s).value)
  {
    hide ValueAt, MatchesAt, TrimStart, IsWhite, IsQuote;
    WhiteIsSafe();
    assert |s| >= 4 by { AnyCaseEnds(s, "href"); }
    var q := AfterWhite(s, 4);
    assert s[q..][1..] == s[q + 1..];
    var p := AfterWhite(s, q + 1);
    var u := s[p..];
    ValueShape(u);
    var r := ValueAt(u).value;
    assert HrefAt(s) == Some(Range(p + r.from, p + r.to));
    assert r.from > 0 ==> s[p + r.from - 1] == u[r.from - 1];
    assert r.to < |u| ==> s[p + r.to] == u[r.to];
    assert p == q + 1 ==> s[p - 1] == s[q..][0];
  }

  lemma WhiteIsSafe()
    ensures forall c: char :: IsWhite(c) || IsQuote(c) ==> !TokenChar(MARK, c)
  {
  }

  lemma {:induction false} HrefShape(s: string)
    requires Href(s).Some?
    ensures SafeRange(s, Href(s).value)
  {
    hide HrefAt;
    if HrefAt(s).Some? {
      HrefAtShape(s);
    } else {
      HrefShape(s[1..]);
      var r := Href(s[1..]).value;
      assert s[1..][r.from - 1] == s[r.from] && (r.to < |s| - 1 ==> s[1..][r.to] == s[r.to + 1]);
    }
  }

  /** The address stands before the text, both inside the match, at safe places. */
  lemma LinkShape(s: string)
    requires LinkAt(s).Some?
    ensures var m := LinkAt(s).value;
            && 0 < m.text.from <= m.text.to < m.len <= |s|
            && s[0] == '<' && s[m.text.from - 1] == '>' && s[m.text.to] == '<' && s[m.len - 1] == '>'
            && (m.href.Some? ==> SafeRange(s[..m.text.from], m.href.value))
  {
    hide Href, Find, MatchesAt, SpacedLen, LowerAscii;
    AnyCaseEnds(s, "<a");
    var k := Find(s[2..], Exactly(">")).value;
    assert s[2..][k..] == s[2 + k..];
    var from := k + 3;
    var j := Find(s[from..], Spaced("</a")).value;
    assert s[from..][j..] == s[from + j..];
    SpacedEnds(s[from + j..], "</a");
    LowerOfBracket();
    AddressShape(s, k);
  }

  lemma AddressShape(s: string, k: nat)
    requires k + 2 < |s| && s[k + 2] == '>'
    ensures var r := Shifted(Href(s[2..k + 2]), 2); r.Some? ==> SafeRange(s[..k + 3], r.value)
  {
    hide Href, SafeRange;
    var attrs := s[2..k + 2];
    if Href(attrs).Some? {
      HrefShape(attrs);
      RangeInside(s, k, Href(attrs).value);
    }
  }

  lemma RangeInside(s: string, k: nat, r: Range)
    requires k + 2 < |s| && s[k + 2] == '>' && SafeRange(s[2..k + 2], r)
    ensures SafeRange(s[..k + 3], Range(r.from + 2, r.to + 2))
  {
    var attrs := s[2..k + 2];
    assert attrs[r.from - 1] == s[r.from + 1] && (r.to < |attrs| ==> attrs[r.to] == s[r.to + 2]);
  }

  lemma LowerOfBracket()
    ensures forall c: char :: (LowerAscii(c) == '<' ==> c == '<') && (LowerAscii(c) == '>' ==> c == '>')
  {
  }

  lemma SpacedEnds(s: string, prefix: string)
    requires SpacedLen(s, prefix) > 0
    ensures |prefix| < SpacedLen(s, prefix) <= |s| && s[SpacedLen(s, prefix) - 1] == '>'
    ensures prefix != [] ==> LowerAscii(s[0]) == prefix[0]
  {
    if prefix != [] { AnyCaseEnds(s, prefix); }
    var k := TrimStartShape(s[|prefix|..]);
    assert TrimStart(s[|prefix|..]) == s[|prefix| + k..];
  }

  predicate Ascending(s: seq<nat>) {
    forall i, j | 0 <= i < j < |s| :: s[i] < s[j]
  }

  function Between(s: string, r: Range): string {
    if r.from <= r.to <= |s| then s[r.from..r.to] else []
  }

  /** This link has a code span in its text and one in its address, which `linkReplacer` puts behind the text. */
  predicate Crosses(s: string, m: Link) {
    m.href.Some? && MARK in Between(s, m.text) && MARK in Between(s, m.href.value)
  }

  predicate SomeLinkCrosses(s: string)
    decreases |s|
  {
    s != []
    && if Matches(s, LinkFound) then Crosses(s, LinkAt(s).value) || SomeLinkCrosses(s[LinkAt(s).value.len..])
       else SomeLinkCrosses(s[1..])
  }

  lemma {:induction false} MarkIffToken(items: seq<Item>)
    requires Clean(MARK, items)
    ensures MARK in Flat(MARK, items) <==> TokensOf(items) != []
  {
    if items != [] {
      MarkIffToken(items[1..]);
      if items[0].Token? {
        assert Flat(MARK, items)[0] == MARK;
      } else {
        assert Flat(MARK, items) == [items[0].c] + Flat(MARK, items[1..]);
      }
    }
  }

  lemma AscendingParts(a: seq<nat>, b: seq<nat>)
    ensures Ascending(a + b) <==>
            Ascending(a) && Ascending(b) && forall i, j | 0 <= i < |a| && 0 <= j < |b| :: a[i] < b[j]
  {
    var s := a + b;
    assert forall i | 0 <= i < |a| :: s[i] == a[i];
    assert forall j | 0 <= j < |b| :: s[|a| + j] == b[j];
  }

  lemma AscendingSubsequence(a: seq<nat>, b: seq<nat>)
    requires Subsequence(a, b) && Ascending(b)
    ensures Ascending(a)
  {
    var ks: seq<nat> :| Picks(a, b, ks);
  }

  /** What the tokens of one match become: the text's, then the address's, which stood before it. */
  lemma CrossIff(p: seq<nat>, h: seq<nat>, m: seq<nat>, t: seq<nat>, r: seq<nat>)
    ensures multiset(t) <= multiset(p + h + m + (t + r)) && multiset(t + h) <= multiset(p + h + m + (t + r))
    ensures Ascending(p + h + m + (t + r)) ==> Ascending(t) && (Ascending(t + h) <==> t == [] || h == [])
  {
    AscendingParts(p + h + m, t + r);
    AscendingParts(p + h, m);
    AscendingParts(p, h);
    AscendingParts(t, r);
    AscendingParts(t, h);
    if Ascending(p + h + m + (t + r)) && t != [] && h != [] {
      assert (p + h + m)[|p|] == h[0] && (t + r)[0] == t[0];
    }
  }

  /** t shows these items; their tokens are among the source's, none twice, and in order exactly if nothing crosses. */
  predicate LinkedFrom(items: seq<Item>, source: seq<Item>, t: string, crosses: bool) {
    && Clean(MARK, items) && Flat(MARK, items) == t
    && multiset(TokensOf(items)) <= multiset(TokensOf(source))
    && (Ascending(TokensOf(source)) ==> (Ascending(TokensOf(items)) <==> !crosses))
  }

  lemma AscendingJoin(a: seq<nat>, b: seq<nat>, x: seq<nat>, y: seq<nat>)
    requires multiset(x) <= multiset(a) && multiset(y) <= multiset(b)
    ensures multiset(x + y) <= multiset(a + b)
    ensures Ascending(a + b) ==> (Ascending(x + y) <==> Ascending(x) && Ascending(y))
  {
    AscendingParts(a, b);
    AscendingParts(x, y);
    if Ascending(a + b) {
      forall i, j | 0 <= i < |x| && 0 <= j < |y|
        ensures x[i] < y[j]
      {
        assert x[i] in multiset(x) && y[j] in multiset(y);
        assert x[i] in a && y[j] in b;
      }
    }
  }

  lemma LinkedJoin(first: seq<Item>, s: string, c: bool, rest: seq<Item>, t: string, d: bool, source: seq<Item>, a: nat)
    requires a <= |source| && LinkedFrom(first, source[..a], s, c) && LinkedFrom(rest, source[a..], t, d)
    ensures LinkedFrom(first + rest, source, s + t, c || d)
  {
    hide Flat, TokensOf, Ascending;
    FlatConcat(MARK, first, rest);
    TokensConcat(first, rest);
    TokensConcat(source[..a], source[a..]);
    assert source[..a] + source[a..] == source;
    var x, y := TokensOf(source[..a]), TokensOf(source[a..]);
    AscendingParts(x, y);
    AscendingJoin(x, y, TokensOf(first), TokensOf(rest));
  }

  /** The places of one link's items. */
  lemma LinkItemsOf(items: seq<Item>, m: Link) returns (first: seq<Item>)
    requires Clean(MARK, items)
    requires var t := Flat(MARK, items);
             && ValidPiece(MARK, t, Kept(m.text.from, m.text.to))
             && (m.href.Some? ==> ValidPiece(MARK, t[..m.text.from], Kept(m.href.value.from, m.href.value.to)))
    ensures var t := Flat(MARK, items); LinkedFrom(first, items, Apply(t, LinkEdit(m)), Crosses(t, m))
  {
    hide Flat, TokensOf, Ascending, Shown, Apply;
    var t := Flat(MARK, items);
    var b := SafeCut(MARK, items, m.text.from);
    var head, tail := items[..b], items[b..];
    var c := SafeCut(MARK, tail, m.text.to - m.text.from);
    var text, after := tail[..c], tail[c..];
    SliceTwice(t, m.text.from, m.text.to);
    assert Flat(MARK, text) == Between(t, m.text);
    TokensConcat(head, tail);
    TokensConcat(text, after);
    assert items == head + tail && tail == text + after;
    MarkIffToken(text);
    ApplyLink(t, m);
    match m.href {
      case None =>
        first := text;
        NoTokensFirst(TokensOf(head));
        CrossIff([], [], TokensOf(head), TokensOf(text), TokensOf(after));
      case Some(href) =>
        var d, e := SafeSlice(MARK, head, href.from, href.to);
        var address := head[d..e];
        assert t[..m.text.from][href.from..href.to] == Between(t, href);
        TokensOfSlice(head, d, e);
        MarkIffToken(address);
        CrossIff(TokensOf(head[..d]), TokensOf(address), TokensOf(head[e..]), TokensOf(text), TokensOf(after));
        first := Chars("[") + text + Chars("](") + address + Chars(")");
        Brackets(text, address);
    }
  }

  lemma NoTokensFirst(a: seq<nat>)
    ensures [] + [] + a == a
  {
  }

  lemma SliceTwice<T>(s: seq<T>, from: nat, to: nat)
    requires from <= to <= |s|
    ensures s[from..][..to - from] == s[from..to]
  {
  }

  lemma ApplyLink(t: string, m: Link)
    requires m.text.from <= m.text.to <= |t| && (m.href.Some? ==> m.href.value.from <= m.href.value.to <= |t|)
    ensures Apply(t, LinkEdit(m)) ==
            if m.href.None? then Between(t, m.text)
            else "[" + Between(t, m.text) + "](" + Between(t, m.href.value) + ")"
  {
    var edit := LinkEdit(m);
    assert edit[0..] == edit && edit[|edit|..] == [];
    hide Apply;
    ApplyFrom(t, edit, 0);
    if m.href.Some? {
      ApplyFrom(t, edit, 1);
      ApplyFrom(t, edit, 2);
      ApplyFrom(t, edit, 3);
      ApplyFrom(t, edit, 4);
      FiveParts("[", Between(t, m.text), "](", Between(t, m.href.value), ")");
    }
  }

  lemma ApplyFrom(t: string, edit: Edit, k: nat)
    requires k < |edit|
    ensures Apply(t, edit[k..]) == Written(t, edit[k]) + Apply(t, edit[k + 1..])
    ensures Apply(t, []) == []
  {
    assert edit[k..][1..] == edit[k + 1..];
  }

  lemma FiveParts<T>(a: seq<T>, b: seq<T>, c: seq<T>, d: seq<T>, e: seq<T>)
    ensures a + (b + (c + (d + (e + [])))) == a + b + c + d + e
  {
  }

  lemma Brackets(text: seq<Item>, address: seq<Item>)
    requires Clean(MARK, text) && Clean(MARK, address)
    ensures var all := Chars("[") + text + Chars("](") + address + Chars(")");
            && Clean(MARK, all) && TokensOf(all) == TokensOf(text) + TokensOf(address)
            && Flat(MARK, all) == "[" + Flat(MARK, text) + "](" + Flat(MARK, address) + ")"
  {
    hide Flat, TokensOf;
    var a, b, c := Chars("["), Chars("]("), Chars(")");
    FlatChars(MARK, "[");
    FlatChars(MARK, "](");
    FlatChars(MARK, ")");
    NoTokens(a);
    NoTokens(b);
    NoTokens(c);
    FlatConcat(MARK, a, text);
    FlatConcat(MARK, a + text, b);
    FlatConcat(MARK, a + text + b, address);
    FlatConcat(MARK, a + text + b + address, c);
    TokensConcat(a, text);
    TokensConcat(a + text, b);
    TokensConcat(a + text + b, address);
    TokensConcat(a + text + b + address, c);
  }

  lemma LinkIsSafe(s: string)
    requires Matches(s, LinkFound)
    ensures SafeFound(s, LinkFound(s).value)
    ensures var m := LinkAt(s).value;
            var t := s[..m.len];
            && m.len == LinkFound(s).value.len && ValidPiece(MARK, t, Kept(m.text.from, m.text.to))
            && (m.href.Some? ==> ValidPiece(MARK, t[..m.text.from], Kept(m.href.value.from, m.href.value.to)))
  {
    hide LinkAt;
    LinkShape(s);
    var m := LinkAt(s).value;
    var t := s[..m.len];
    assert t[m.text.from - 1] == '>' && t[m.text.to] == '<' && t[..m.text.from] == s[..m.text.from];
    if m.href.Some? {
      var r := m.href.value;
      assert s[..m.text.from][r.from - 1] == t[r.from - 1];
      assert r.to < m.text.from ==> s[..m.text.from][r.to] == t[r.to];
      assert ValidPiece(MARK, t, Kept(r.from, r.to));
    }
  }

  lemma LinkIsCareful()
    ensures Careful(LinkFound)
  {
    hide SafeFound, LinkFound;
    forall s: string | Matches(s, LinkFound)
      ensures SafeFound(s, LinkFound(s).value)
    {
      LinkIsSafe(s);
    }
  }

  lemma {:induction false} CrossesSkips(pre: string, rest: string)
    requires forall i | 0 <= i < |pre| :: TokenChar(MARK, pre[i])
    ensures SomeLinkCrosses(pre + rest) == SomeLinkCrosses(rest)
  {
    if pre == [] {
      assert pre + rest == rest;
    } else {
      assert (pre + rest)[1..] == pre[1..] + rest;
      CrossesSkips(pre[1..], rest);
      if Matches(pre + rest, LinkFound) { LinkIsSafe(pre + rest); }
      hide LinkFound, Crosses;
    }
  }

  lemma CrossesPasses(items: seq<Item>)
    requires items != [] && !Matches(Flat(MARK, items), LinkFound)
    ensures SomeLinkCrosses(Flat(MARK, items)) == SomeLinkCrosses(Flat(MARK, items[1..]))
  {
    var rest := Flat(MARK, items[1..]);
    hide LinkFound, Crosses;
    ShownIsTokenChars(MARK, items[0]);
    if items[0].Token? {
      CrossesSkips(Shown(MARK, items[0]), rest);
    } else {
      assert Flat(MARK, items)[1..] == rest;
    }
  }

  lemma CrossesAt(s: string)
    requires Matches(s, LinkFound)
    ensures var m := LinkAt(s).value;
            0 < m.len <= |s| && (SomeLinkCrosses(s) <==> Crosses(s[..m.len], m) || SomeLinkCrosses(s[m.len..]))
  {
    LinkShape(s);
    var m := LinkAt(s).value;
    CrossesPrefix(s, m);
    hide LinkAt, Crosses;
  }

  lemma CrossesPrefix(s: string, m: Link)
    requires m.text.to <= m.len <= |s| && (m.href.Some? ==> m.href.value.to <= m.len)
    ensures Crosses(s[..m.len], m) == Crosses(s, m)
  {
    BetweenPrefix(s, m.len, m.text);
    if m.href.Some? { BetweenPrefix(s, m.len, m.href.value); }
    hide Between;
  }

  lemma BetweenPrefix(s: string, n: nat, r: Range)
    requires r.to <= n <= |s|
    ensures Between(s[..n], r) == Between(s, r)
  {
    assert r.from <= r.to ==> s[..n][r.from..r.to] == s[r.from..r.to];
  }

  lemma LinkedOne(items: seq<Item>)
    requires items != [] && Clean(MARK, items)
    ensures LinkedFrom([items[0]], items[..1], Shown(MARK, items[0]), false)
  {
    hide TokensOf;
    FlatParts(MARK, [items[0]]);
    assert items[..1] == [items[0]] && [items[0]][1..] == [];
  }

  lemma LinkMatch(items: seq<Item>) returns (a: nat, first: seq<Item>)
    requires Clean(MARK, items) && Matches(Flat(MARK, items), LinkFound)
    ensures var s := Flat(MARK, items);
            var m := LinkAt(s).value;
            && 0 < a <= |items| && 0 < m.len <= |s| && Flat(MARK, items[a..]) == s[m.len..]
            && LinkedFrom(first, items[..a], Apply(s[..m.len], LinkEdit(m)), Crosses(s[..m.len], m))
  {
    hide Flat, Apply, LinkAt, LinkEdit, TokensOf, Crosses, ValidEdit, LinkedFrom;
    var s := Flat(MARK, items);
    LinkIsSafe(s);
    var m := LinkAt(s).value;
    a := SafeCut(MARK, items, m.len);
    FlatParts(MARK, items[..0]);
    assert items[..0] == [] && a > 0;
    first := LinkItemsOf(items[..a], m);
  }

  lemma {:induction false} LinkItems(items: seq<Item>) returns (out: seq<Item>)
    requires Clean(MARK, items)
    ensures LinkedFrom(out, items, Rewrite(Flat(MARK, items), LinkFound), SomeLinkCrosses(Flat(MARK, items)))
    decreases |items|
  {
    hide Flat, Rewrite, LinkAt, LinkEdit, Careful, LinkedFrom, Apply, SomeLinkCrosses, Crosses;
    var s := Flat(MARK, items);
    LinkIsCareful();
    RewriteParts(s, LinkFound);
    if items == [] {
      out := [];
      LinkNothing();
    } else if Matches(s, LinkFound) {
      var m := LinkAt(s).value;
      var a, first := LinkMatch(items);
      var rest := LinkItems(items[a..]);
      CrossesAt(s);
      LinkedJoin(first, Apply(s[..m.len], LinkEdit(m)), Crosses(s[..m.len], m),
                 rest, Rewrite(s[m.len..], LinkFound), SomeLinkCrosses(s[m.len..]), items, a);
      out := first + rest;
    } else {
      var after := Flat(MARK, items[1..]);
      var rest := LinkItems(items[1..]);
      ItemPasses(items, LinkFound);
      CrossesPasses(items);
      LinkedOne(items);
      LinkedJoin([items[0]], Shown(MARK, items[0]), false, rest, Rewrite(after, LinkFound), SomeLinkCrosses(after),
          items, 1);
      out := [items[0]] + rest;
    }
  }

  lemma LinkNothing()
    ensures LinkedFrom([], [], Rewrite(Flat(MARK, []), LinkFound), SomeLinkCrosses(Flat(MARK, [])))
  {
  }

  // ---------------------------------------------------------- whole cells

  function CodeItems(html: string): seq<Item> {
    LiftItems(Without(html, MARK), CodeLen, 0)
  }

  lemma CodeIsLifted(html: string)
    ensures Clean(MARK, CodeItems(html)) && Flat(MARK, CodeItems(html)) == WithoutCode(html)
  {
    var list := CodeMatches(html);
    var body := (n: nat) => if n < |list| then list[n] else [];
    assert Gives(body, 0, list);
    LiftIsClean(MARK, Without(html, MARK), CodeLen, 0, body);
  }

  /** Lifting numbers the tokens from next on. */
  lemma {:induction false} LiftNumbers(s: string, len: Matcher, next: nat)
    ensures var ns := TokensOf(LiftItems(s, len, next));
            |ns| == |Lifted(s, len)| && forall i | 0 <= i < |ns| :: ns[i] == next + i
    decreases |s|
  {
    if s != [] {
      if 0 < len(s) <= |s| {
        LiftNumbers(s[len(s)..], len, next + 1);
        assert LiftItems(s, len, next)[1..] == LiftItems(s[len(s)..], len, next + 1);
      } else {
        LiftNumbers(s[1..], len, next);
        assert LiftItems(s, len, next)[1..] == LiftItems(s[1..], len, next);
      }
    }
  }

  lemma UntagItems(items: seq<Item>) returns (out: seq<Item>)
    requires Clean(MARK, items)
    ensures var s := Flat(MARK, items);
            ShowsFrom(out, items, Rewrite(Rewrite(Rewrite(s, EmphasisFound), Put(BreakLen, " ")), Put(TagLen, "")))
  {
    EmphasisIsCareful();
    BreakIsCareful();
    TagIsCareful();
    hide Flat, Rewrite, Careful, KeepsOne, Subsequence, TokensOf, Put;
    var a := RewriteItems(items, EmphasisFound);
    var b := RewriteItems(a, Put(BreakLen, " "));
    out := RewriteItems(b, Put(TagLen, ""));
    SubsequenceTrans(TokensOf(b), TokensOf(a), TokensOf(items));
    SubsequenceTrans(TokensOf(out), TokensOf(b), TokensOf(items));
  }

  lemma FinishItems(items: seq<Item>) returns (out: seq<Item>)
    requires Clean(MARK, items)
    ensures ShowsFrom(out, items, Trim(EscapePipes(CacheKeys.Collapse(DecodeEntities(Flat(MARK, items))))))
  {
    hide Flat, DecodeEntities, EscapePipes, Trim, Subsequence, TokensOf;
    var a := DecodeItems(items);
    var b := CollapseItems(a);
    var c := EscapeItems(b);
    out := TrimItems(c);
    SubsequenceTrans(TokensOf(b), TokensOf(a), TokensOf(items));
    SubsequenceTrans(TokensOf(c), TokensOf(b), TokensOf(items));
    SubsequenceTrans(TokensOf(out), TokensOf(c), TokensOf(items));
  }

  lemma OnlyReading(items: seq<Item>)
    requires Clean(MARK, items)
    ensures forall other :: Clean(MARK, other) && Flat(MARK, other) == Flat(MARK, items) ==> other == items
  {
    hide Flat, Clean;
    forall other | Clean(MARK, other) && Flat(MARK, other) == Flat(MARK, items)
      ensures other == items
    {
      FlatInjective(MARK, other, items);
    }
  }

  /** The cell just before the lookup is read as characters and tokens in one way only, and the lookup spells
      that reading: token n as span n's own body. The tokens are numbered as the spans stood in the cell; a span
      comes out at most once; only a link with one span in its address and one in its text puts two out of
      order, every other step merely leaves some out. */
  lemma CellKeepsCode(html: string) returns (linked: seq<Item>, out: seq<Item>)
    ensures var ns := TokensOf(CodeItems(html)); |ns| == |CodeBodies(html)| && forall i | 0 <= i < |ns| :: ns[i] == i
    ensures LinkedFrom(linked, CodeItems(html), Linked(html), SomeLinkCrosses(WithoutCode(html)))
    ensures ShowsFrom(out, linked, Rendered(html))
    ensures forall other :: Clean(MARK, other) && Flat(MARK, other) == Rendered(html) ==> other == out
    ensures RenderCell(html) == Spell(out, CodeSpan(CodeBodies(html)))
  {
    var body := CodeSpan(CodeBodies(html));
    LiftNumbers(Without(html, MARK), CodeLen, 0);
    CodeIsLifted(html);
    hide Flat, Rewrite, WithoutCode, CodeItems, DecodeEntities, EscapePipes, Trim, Restore, Spell, CodeSpan, CodeBodies;
    hide Subsequence, TokensOf, Put, SomeLinkCrosses, Ascending;
    linked := LinkItems(CodeItems(html));
    var untagged := UntagItems(linked);
    out := FinishItems(untagged);
    SubsequenceTrans(TokensOf(out), TokensOf(untagged), TokensOf(linked));
    RestoreFlat(MARK, out, body);
    OnlyReading(out);
  }

  /** Without such a link every span that is left stands where it stood among the others. */
  lemma CellKeepsOrder(html: string) returns (out: seq<Item>)
    requires !SomeLinkCrosses(WithoutCode(html))
    ensures Clean(MARK, out) && Flat(MARK, out) == Rendered(html) && Ascending(TokensOf(out))
    ensures RenderCell(html) == Spell(out, CodeSpan(CodeBodies(html)))
  {
    hide Flat, Rewrite, SomeLinkCrosses, TokensOf, CodeItems, CodeBodies, CodeSpan;
    var linked: seq<Item>;
    linked, out := CellKeepsCode(html);
    AscendingSubsequence(TokensOf(out), TokensOf(linked));
  }
}
