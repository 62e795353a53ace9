/** Which rows and cells are found in a table, whatever their attributes, whether the cells are closed or not, and
    whatever stands between. */
module TableParts {
  import opened Text
  import opened Lines
  import opened Placeholders
  import opened Patterns
  import opened HtmlCell
  import opened HtmlTable
  import CrossedLink
  import CellParts

  /** One cell: its tag, its attributes, what it holds, and its closing tag with what follows, if it has one. */
  datatype CellSource = CellSource(header: bool, attrs: string, html: string, closing: Option<string>)

  datatype RowSource = RowSource(gap: string, attrs: string, lead: string, cells: seq<CellSource>)

  /** Every bracket is followed by something other than a t, or a slash and a t. */
  predicate NoTableTag(s: string) {
    forall i | 0 <= i < |s| && s[i] == '<' ::
      i + 2 < |s| && LowerAscii(s[i + 1]) != 't' && (s[i + 1] == '/' ==> LowerAscii(s[i + 2]) != 't')
  }

  /** No bracket is followed by `tr`. */
  predicate NoRowTag(s: string) {
    forall i | 0 <= i < |s| && s[i] == '<' ::
      i + 2 < |s| && !(LowerAscii(s[i + 1]) == 't' && LowerAscii(s[i + 2]) == 'r')
  }

  predicate ValidCell(c: CellSource) {
    && '>' !in c.attrs && '<' !in c.attrs && NoTableTag(c.html)
    && (c.closing.Some? ==> '<' !in c.closing.value)
  }

  predicate ValidCells(cells: seq<CellSource>) {
    forall i | 0 <= i < |cells| :: ValidCell(cells[i])
  }

  predicate ValidRow(r: RowSource) {
    NoRowTag(r.gap) && '>' !in r.attrs && '<' !in r.attrs && '<' !in r.lead && ValidCells(r.cells)
  }

  predicate ValidRows(rows: seq<RowSource>) {
    forall i | 0 <= i < |rows| :: ValidRow(rows[i])
  }

  function TagName(header: bool): string {
    if header then "th" else "td"
  }

  function Opening(c: CellSource): string {
    "<" + TagName(c.header) + c.attrs + ">"
  }

  function Closing(c: CellSource): string {
    if c.closing.None? then [] else "</" + TagName(c.header) + ">" + c.closing.value
  }

  function CellHtml(c: CellSource): string {
    Opening(c) + (c.html + Closing(c))
  }

  function CellsHtml(cells: seq<CellSource>): string {
    if cells == [] then [] else CellHtml(cells[0]) + CellsHtml(cells[1..])
  }

  function Inner(r: RowSource): string {
    r.lead + CellsHtml(r.cells)
  }

  function RowHtml(r: RowSource): string {
    r.gap + ("<tr" + r.attrs + ">" + (Inner(r) + "</tr>"))
  }

  /** The rows of a table, and what follows the last of them. */
  function TableHtml(rows: seq<RowSource>, rest: string): string {
    if rows == [] then rest else RowHtml(rows[0]) + TableHtml(rows[1..], rest)
  }

  // ------------------------------------------------------------------- cells

  function Raw(cells: seq<CellSource>): (r: seq<RawCell>)
    ensures |r| == |cells|
  {
    seq(|cells|, i requires 0 <= i < |cells| => RawCell(cells[i].header, cells[i].html))
  }

  lemma NoTableTagRest(s: string, k: nat)
    requires NoTableTag(s) && k <= |s|
    ensures NoTableTag(s[k..])
  {
    assert forall i | 0 <= i < |s| - k :: s[k..][i] == s[i + k];
  }

  /** In the middle of a cell's content nothing stops it. */
  lemma NothingStops(s: string, rest: string)
    requires NoTableTag(s) && s != []
    ensures !StopsCell(s + rest)
  {
    var w := s + rest;
    assert w[0] == s[0] && (|s| > 1 ==> w[1] == s[1]) && (|s| > 2 ==> w[2] == s[2]);
    NoSuchTag(w, "<td");
    NoSuchTag(w, "<th");
    NoSuchTag(w, "</td");
    NoSuchTag(w, "</th");
  }

  lemma NoSuchTag(w: string, tag: string)
    requires w != [] && (w[0] == '<' ==>
               |w| > 2 && LowerAscii(w[1]) != 't' && (w[1] == '/' ==> LowerAscii(w[2]) != 't'))
    requires |tag| > 2 && tag[0] == '<' && (tag[1] == 't' || (tag[1] == '/' && tag[2] == 't'))
    ensures !MatchesAt(w, 0, tag)
  {
    if MatchesAt(w, 0, tag) {
      assert LowerAscii(w[0 + 0]) == tag[0] && LowerAscii(w[0 + 1]) == tag[1] && LowerAscii(w[0 + 2]) == tag[2];
      SlashOrBracket(w[0], w[1]);
    }
  }

  lemma SlashOrBracket(c: char, d: char)
    ensures (LowerAscii(c) == '<' ==> c == '<') && (LowerAscii(d) == '/' ==> d == '/')
  {
  }

  lemma {:induction false} ContentIs(html: string, rest: string)
    requires NoTableTag(html) && StopsCell(rest)
    ensures ContentLen(html + rest) == |html|
  {
    hide StopsCell, NoTableTag;
    if html == [] {
      assert html + rest == rest;
    } else {
      NothingStops(html, rest);
      NoTableTagRest(html, 1);
      ContentIs(html[1..], rest);
      assert (html + rest)[1..] == html[1..] + rest;
    }
  }

  lemma OpensWithTag(c: CellSource, rest: string)
    requires ValidCell(c)
    ensures var w := Opening(c) + rest;
            && CellOpens(w) && MatchesAt(w, 0, "<th") == c.header
            && Find(w[3..], Exactly(">")) == Some(|c.attrs|) && w[|c.attrs| + 4..] == rest
            && |Opening(c)| == |c.attrs| + 4
  {
    hide Find;
    var w := Opening(c) + rest;
    assert w[3..] == c.attrs + (">" + rest);
    CrossedLink.FindsBracket(c.attrs, rest);
    if c.header {
      assert MatchesAt(w, 0, "<th");
    } else {
      assert MatchesAt(w, 0, "<td");
      Mismatch(w, 0, "<th", 2);
    }
  }

  lemma ClosingStops(header: bool, rest: string)
    ensures StopsCell("</" + TagName(header) + ">" + rest)
  {
    var w := "</" + TagName(header) + ">" + rest;
    var tag := "</" + TagName(header);
    assert w[4..] == ">" + rest && TrimStart(">" + rest) == ">" + rest;
    assert MatchesAt(w, 0, tag);
    assert SpacedLen(w, tag) == 5;
  }

  /** What follows a cell's content stops it: its closing tag, the next cell, or the end. */
  lemma NextStops(c: CellSource, cells: seq<CellSource>)
    requires ValidCells(cells)
    ensures StopsCell(Closing(c) + CellsHtml(cells))
  {
    hide StopsCell, CellHtml;
    if c.closing.Some? {
      var rest := c.closing.value + CellsHtml(cells);
      ClosingStops(c.header, rest);
      assert Closing(c) + CellsHtml(cells) == "</" + TagName(c.header) + ">" + rest;
    } else {
      assert Closing(c) + CellsHtml(cells) == CellsHtml(cells);
      if cells == [] {
        EndStops();
      } else {
        OpeningStops(cells[0], CellsHtml(cells[1..]));
      }
    }
  }

  lemma EndStops()
    ensures StopsCell([])
  {
  }

  lemma OpeningStops(c: CellSource, rest: string)
    requires ValidCell(c)
    ensures StopsCell(CellHtml(c) + rest)
  {
    OpensWithTag(c, (c.html + Closing(c)) + rest);
    assert CellHtml(c) + rest == Opening(c) + ((c.html + Closing(c)) + rest);
    hide CellOpens, SpacedLen, Opening;
  }

  /** No cell starts in it. */
  predicate NoCellIn(s: string) {
    forall i | 0 <= i < |s| && s[i] == '<' :: i + 1 < |s| && LowerAscii(s[i + 1]) != 't'
  }

  lemma NoCellAt(w: string)
    requires w != [] && (w[0] == '<' ==> |w| > 1 && LowerAscii(w[1]) != 't')
    ensures CellAt(w).None?
  {
    if w[0] == '<' {
      Mismatch(w, 0, "<td", 1);
      Mismatch(w, 0, "<th", 1);
    } else {
      CrossedLink.NotAt(w, "<td");
      CrossedLink.NotAt(w, "<th");
    }
  }

  lemma {:induction false} CellsSkip(pre: string, rest: string)
    requires NoCellIn(pre)
    ensures CellMatches(pre + rest) == CellMatches(rest)
  {
    hide CellMatches, CellAt;
    if pre == [] {
      assert pre + rest == rest;
    } else {
      var w := pre + rest;
      assert w[0] == pre[0] && (|pre| > 1 ==> w[1] == pre[1]) && w[1..] == pre[1..] + rest;
      NoCellAt(w);
      CellsParts(w);
      assert forall i | 0 <= i < |pre| - 1 :: pre[1..][i] == pre[i + 1];
      CellsSkip(pre[1..], rest);
    }
  }

  lemma CellsParts(inner: string)
    ensures inner == [] ==> CellMatches(inner) == []
    ensures inner != [] ==>
              CellMatches(inner) ==
              match CellAt(inner)
              case Some(m) => [m.cell] + CellMatches(inner[m.len..])
              case None => CellMatches(inner[1..])
  {
    hide CellAt;
  }

  lemma ClosingHasNoCell(c: CellSource)
    requires ValidCell(c)
    ensures NoCellIn(Closing(c))
  {
    if c.closing.Some? {
      var w := Closing(c);
      assert w[1] == '/' && LowerAscii('/') == '/';
      assert w[1..] == "/" + TagName(c.header) + ">" + c.closing.value;
      CellParts.NoneInRest(w);
    }
  }

  lemma CellAtOpening(c: CellSource, cells: seq<CellSource>)
    requires ValidCell(c) && ValidCells(cells)
    ensures var tail := Closing(c) + CellsHtml(cells);
            var w := Opening(c) + (c.html + tail);
            && CellAt(w) == Some(CellMatch(RawCell(c.header, c.html), |c.attrs| + 4 + |c.html|))
            && w[|c.attrs| + 4 + |c.html|..] == tail
  {
    hide Find, ContentLen, StopsCell, CellOpens, Opening, Closing;
    var tail := Closing(c) + CellsHtml(cells);
    var w, from := Opening(c) + (c.html + tail), |c.attrs| + 4;
    OpensWithTag(c, c.html + tail);
    NextStops(c, cells);
    ContentIs(c.html, tail);
    Behind(w, from, c.html, tail);
  }

  lemma Behind(w: string, from: nat, html: string, tail: string)
    requires from <= |w| && w[from..] == html + tail
    ensures from + |html| <= |w| && w[from..from + |html|] == html && w[from + |html|..] == tail
  {
    assert |w| == from + |html + tail|;
    assert forall i | 0 <= i < |html + tail| :: w[from + i] == w[from..][i];
  }

  lemma OneCell(c: CellSource, rest: seq<CellSource>)
    requires ValidCell(c) && ValidCells(rest)
    ensures CellMatches(CellHtml(c) + CellsHtml(rest))
         == [RawCell(c.header, c.html)] + CellMatches(CellsHtml(rest))
  {
    hide CellMatches, CellAt, Opening, Closing, CellsHtml, ValidCell, ValidCells;
    var tail := Closing(c) + CellsHtml(rest);
    var w := Opening(c) + (c.html + tail);
    assert CellHtml(c) + CellsHtml(rest) == w;
    CellAtOpening(c, rest);
    OpeningNotEmpty(c);
    CellsParts(w);
    ClosingHasNoCell(c);
    CellsSkip(Closing(c), CellsHtml(rest));
  }

  /** All the cells are found, each with what it holds. */
  lemma {:induction false} CellsFound(cells: seq<CellSource>)
    requires ValidCells(cells)
    ensures CellMatches(CellsHtml(cells)) == Raw(cells)
  {
    hide CellMatches, CellHtml;
    if cells == [] {
      CellsParts([]);
    } else {
      CellsFound(cells[1..]);
      OneCell(cells[0], cells[1..]);
      assert Raw(cells) == [RawCell(cells[0].header, cells[0].html)] + Raw(cells[1..]);
    }
  }

  lemma OpeningNotEmpty(c: CellSource)
    ensures Opening(c) != []
  {
  }

  // -------------------------------------------------------------------- rows

  lemma NotRowEnd(s: string, i: nat)
    requires i < |s|
    requires || s[i] != '<'
             || (i + 1 < |s| && s[i + 1] != '/')
             || (i + 2 < |s| && LowerAscii(s[i + 2]) != 't')
             || (i + 3 < |s| && LowerAscii(s[i + 3]) != 'r')
    ensures !MatchesAt(s, i, "</tr>")
  {
    var tag := "</tr>";
    if MatchesAt(s, i, tag) {
      assert LowerAscii(s[i + 0]) == tag[0] && LowerAscii(s[i + 1]) == tag[1] && LowerAscii(s[i + 2]) == tag[2]
          && LowerAscii(s[i + 3]) == tag[3];
      SlashOrBracket(s[i], s[i + 1]);
    }
  }

  lemma NoEndConcat(a: string, b: string, rest: string)
    requires NoMatchIn(a, b + rest, "</tr>") && NoMatchIn(b, rest, "</tr>")
    ensures NoMatchIn(a + b, rest, "</tr>")
  {
    var s := a + b + rest;
    assert s == a + (b + rest);
    forall i | 0 <= i < |a + b|
      ensures !MatchesAt(s, i, "</tr>")
    {
      if i >= |a| {
        MatchesBehind(a, b + rest, i - |a|);
        assert !MatchesAt(b + rest, i - |a|, "</tr>");
      }
    }
  }

  lemma MatchesBehind(a: string, s: string, i: nat)
    ensures MatchesAt(a + s, |a| + i, "</tr>") == MatchesAt(s, i, "</tr>")
  {
    assert forall k | 0 <= k < |s| :: (a + s)[|a| + k] == s[k];
  }

  /** At most its first character is a bracket, and what follows that is not the end of a row. */
  lemma NoEndInTag(w: string, rest: string)
    requires w != [] && '<' !in w[1..]
    requires w[0] == '<' ==> (|w| > 1 && w[1] != '/') || (|w| > 3 && LowerAscii(w[3]) != 'r')
    ensures NoMatchIn(w, rest, "</tr>")
  {
    CellParts.NoneInRest(w);
    forall i | 0 <= i < |w|
      ensures !MatchesAt(w + rest, i, "</tr>")
    {
      assert (w + rest)[i] == w[i];
      assert i == 0 ==> (|w| > 1 ==> (w + rest)[1] == w[1]) && (|w| > 3 ==> (w + rest)[3] == w[3]);
      NotRowEnd(w + rest, i);
    }
  }

  lemma NoEndInContent(html: string, rest: string)
    requires NoTableTag(html)
    ensures NoMatchIn(html, rest, "</tr>")
  {
    forall i | 0 <= i < |html|
      ensures !MatchesAt(html + rest, i, "</tr>")
    {
      var s := html + rest;
      assert forall k | i <= k < |html| :: s[k] == html[k];
      NotRowEnd(s, i);
    }
  }

  lemma NoEndInText(text: string, rest: string)
    requires '<' !in text
    ensures NoMatchIn(text, rest, "</tr>")
  {
    forall i | 0 <= i < |text|
      ensures !MatchesAt(text + rest, i, "</tr>")
    {
      assert (text + rest)[i] == text[i];
      NotRowEnd(text + rest, i);
    }
  }

  lemma NoEndInCell(c: CellSource, rest: string)
    requires ValidCell(c)
    ensures NoMatchIn(CellHtml(c), rest, "</tr>")
  {
    hide NoMatchIn, NoTableTag;
    OpeningShape(c);
    NoEndInTag(Opening(c), c.html + Closing(c) + rest);
    NoEndInContent(c.html, Closing(c) + rest);
    if c.closing.Some? {
      ClosingShape(c);
      NoEndInTag(Closing(c), rest);
    } else {
      NoEndInText(Closing(c), rest);
    }
    hide Opening, Closing;
    NoEndConcat(c.html, Closing(c), rest);
    assert c.html + Closing(c) + rest == c.html + (Closing(c) + rest);
    NoEndConcat(Opening(c), c.html + Closing(c), rest);
  }

  lemma OpeningShape(c: CellSource)
    requires ValidCell(c)
    ensures var w := Opening(c); w != [] && '<' !in w[1..] && |w| > 1 && w[1] == 't'
  {
    assert Opening(c)[1..] == TagName(c.header) + c.attrs + ">";
  }

  lemma ClosingShape(c: CellSource)
    requires ValidCell(c) && c.closing.Some?
    ensures var w := Closing(c); w != [] && '<' !in w[1..] && |w| > 3 && LowerAscii(w[3]) != 'r'
  {
    assert Closing(c)[1..] == "/" + TagName(c.header) + ">" + c.closing.value;
  }

  lemma {:induction false} NoEndInCells(cells: seq<CellSource>, rest: string)
    requires ValidCells(cells)
    ensures NoMatchIn(CellsHtml(cells), rest, "</tr>")
  {
    hide NoMatchIn, CellHtml, ValidCell;
    if cells == [] {
      NoEndInText([], rest);
    } else {
      NoEndInCells(cells[1..], rest);
      NoEndInCell(cells[0], CellsHtml(cells[1..]) + rest);
      NoEndConcat(CellHtml(cells[0]), CellsHtml(cells[1..]), rest);
    }
  }

  lemma NoEndInRow(r: RowSource, rest: string)
    requires ValidRow(r)
    ensures NoMatchIn(Inner(r), rest, "</tr>")
  {
    hide NoMatchIn, CellsHtml;
    NoEndInText(r.lead, CellsHtml(r.cells) + rest);
    NoEndInCells(r.cells, rest);
    NoEndConcat(r.lead, CellsHtml(r.cells), rest);
  }

  function RowBody(r: RowSource): string {
    "<tr" + r.attrs + ">" + (Inner(r) + "</tr>")
  }

  lemma RowBodyParts(r: RowSource, rest: string)
    ensures var w, tail := RowBody(r) + rest, "</tr>" + rest;
            var from := |r.attrs| + 4;
            && w[3..] == r.attrs + (">" + (Inner(r) + tail)) && w[from..] == Inner(r) + tail
            && |RowBody(r)| == from + |Inner(r)| + 5 && w[from + |Inner(r)|..] == tail && MatchesAt(w, 0, "<tr")
  {
    hide Inner;
    var w := RowBody(r) + rest;
    assert w == "<tr" + (r.attrs + (">" + (Inner(r) + ("</tr>" + rest))));
    assert w[..3] == "<tr";
  }

  lemma EndsRow(rest: string)
    ensures MatchesAt("</tr>" + rest, 0, "</tr>")
  {
  }

  lemma RowFound(r: RowSource, rest: string)
    requires ValidRow(r)
    ensures RowAt(RowBody(r) + rest) == Some(RowMatch(Inner(r), |RowBody(r)|))
  {
    hide Find, Inner, RowBody, NoMatchIn, MatchesAt;
    var w, tail, from := RowBody(r) + rest, "</tr>" + rest, |r.attrs| + 4;
    assert RowFacts(r, w, tail, from) by { RowBodyParts(r, rest); }
    assert Find(r.attrs + (">" + (Inner(r) + tail)), Exactly(">")) == Some(|r.attrs|) by {
      CrossedLink.FindsBracket(r.attrs, Inner(r) + tail);
    }
    assert Find(Inner(r) + tail, AnyCase("</tr>")) == Some(|Inner(r)|) by {
      NoEndInRow(r, tail);
      EndsRow(rest);
      FindSkips(Inner(r), tail, "</tr>");
    }
    Behind(w, from, Inner(r), tail);
  }

  predicate RowFacts(r: RowSource, w: string, tail: string, from: nat) {
    && 3 <= from <= |w|
    && w[3..] == r.attrs + (">" + (Inner(r) + tail)) && w[from..] == Inner(r) + tail
    && |RowBody(r)| == from + |Inner(r)| + 5 && MatchesAt(w, 0, "<tr")
  }

  lemma RowsParts(html: string)
    ensures html == [] ==> RowMatches(html) == []
    ensures html != [] ==>
              RowMatches(html) ==
              match RowAt(html)
              case Some(m) => [m.inner] + RowMatches(html[m.len..])
              case None => RowMatches(html[1..])
  {
    hide RowAt;
  }

  lemma NoRowAt(w: string)
    requires w != []
    requires w[0] == '<' ==> |w| > 2 && !(LowerAscii(w[1]) == 't' && LowerAscii(w[2]) == 'r')
    ensures RowAt(w).None?
  {
    if w[0] != '<' {
      CrossedLink.NotAt(w, "<tr");
    } else if LowerAscii(w[1]) != 't' {
      Mismatch(w, 0, "<tr", 1);
    } else {
      Mismatch(w, 0, "<tr", 2);
    }
  }

  lemma {:induction false} RowsSkip(pre: string, rest: string)
    requires NoRowTag(pre)
    ensures RowMatches(pre + rest) == RowMatches(rest)
  {
    hide RowMatches, RowAt;
    if pre == [] {
      assert pre + rest == rest;
    } else {
      var w := pre + rest;
      assert w[0] == pre[0] && (|pre| > 1 ==> w[1] == pre[1]) && (|pre| > 2 ==> w[2] == pre[2]);
      assert w[1..] == pre[1..] + rest;
      NoRowAt(w);
      RowsParts(w);
      assert forall i | 0 <= i < |pre| - 1 :: pre[1..][i] == pre[i + 1];
      RowsSkip(pre[1..], rest);
    }
  }

  function Inners(rows: seq<RowSource>): (r: seq<string>)
    ensures |r| == |rows|
  {
    seq(|rows|, i requires 0 <= i < |rows| => Inner(rows[i]))
  }

  lemma OneRow(r: RowSource, rest: string)
    requires ValidRow(r)
    ensures RowMatches(RowHtml(r) + rest) == [Inner(r)] + RowMatches(rest)
  {
    hide RowMatches, RowAt, Inner, NoRowTag, RowBody;
    assert RowHtml(r) + rest == r.gap + (RowBody(r) + rest) by { RowHtmlIs(r, rest); }
    RowsSkip(r.gap, RowBody(r) + rest);
    RowFound(r, rest);
    RowsParts(RowBody(r) + rest);
    assert RowBody(r) != [] by { RowBodyParts(r, rest); }
    assert (RowBody(r) + rest)[|RowBody(r)|..] == rest;
  }

  lemma RowHtmlIs(r: RowSource, rest: string)
    ensures RowHtml(r) + rest == r.gap + (RowBody(r) + rest)
  {
    hide Inner;
  }

  lemma {:induction false} RowsFound(rows: seq<RowSource>, rest: string)
    requires ValidRows(rows) && NoRowTag(rest)
    ensures RowMatches(TableHtml(rows, rest)) == Inners(rows)
  {
    hide RowMatches, RowHtml, Inner, ValidRow;
    if rows == [] {
      RowsSkip(rest, []);
      RowsParts([]);
      assert rest + [] == rest;
    } else {
      RowsFound(rows[1..], rest);
      OneRow(rows[0], TableHtml(rows[1..], rest));
      assert Inners(rows) == [Inner(rows[0])] + Inners(rows[1..]);
    }
  }

  // ------------------------------------------------------------------ tables

  /** A row with its cells rendered: a header if any of its cells is one. */
  predicate RowReads(row: Row, r: RowSource) {
    && |row.cells| == |r.cells|
    && (forall i | 0 <= i < |r.cells| :: row.cells[i] == RenderCell(r.cells[i].html))
    && (row.isHeader <==> exists i :: 0 <= i < |r.cells| && r.cells[i].header)
  }

  lemma {:induction false} RowOfRaw(raw: seq<RawCell>)
    ensures var row := RowOf(raw);
            && |row.cells| == |raw| && (forall i | 0 <= i < |raw| :: row.cells[i] == RenderCell(raw[i].html))
            && (row.isHeader <==> exists i :: 0 <= i < |raw| && raw[i].header)
  {
    hide RenderCell;
    if raw != [] {
      var n := |raw| - 1;
      RowOfRaw(raw[..n]);
      assert forall i | 0 <= i < n :: raw[..n][i] == raw[i];
      if raw[n].header {
        assert exists i :: 0 <= i < |raw| && raw[i].header;
      }
    }
  }

  lemma LeadHasNoCell(lead: string)
    requires '<' !in lead
    ensures NoCellIn(lead)
  {
  }

  lemma RowRead(r: RowSource)
    requires ValidRow(r)
    ensures RowReads(RowOf(CellMatches(Inner(r))), r)
  {
    hide CellMatches, RowOf, RenderCell, CellsHtml, NoCellIn;
    LeadHasNoCell(r.lead);
    CellsSkip(r.lead, CellsHtml(r.cells));
    CellsFound(r.cells);
    RowOfRaw(Raw(r.cells));
    var raw := Raw(r.cells);
    assert forall i | 0 <= i < |raw| :: raw[i].header == r.cells[i].header;
  }

  /** The rows of a table are found, one for every row that has cells, in order, each with its cells rendered. */
  lemma {:induction false} RowsRead(rows: seq<RowSource>) returns (ks: seq<nat>)
    requires ValidRows(rows)
    ensures var found := RowsFrom(Inners(rows));
            && |ks| == |found| && (forall i, j | 0 <= i < j < |ks| :: ks[i] < ks[j])
            && (forall i | 0 <= i < |ks| ::
                  ks[i] < |rows| && rows[ks[i]].cells != [] && RowReads(found[i], rows[ks[i]]))
            && (forall k: nat | k < |rows| && rows[k].cells != [] :: k in ks)
  {
    hide CellMatches, RowOf, Inner, ValidRow, RowReads;
    if rows == [] {
      return [];
    }
    var n := |rows| - 1;
    ks := RowsRead(rows[..n]);
    assert Inners(rows)[..n] == Inners(rows[..n]) && Inners(rows)[n] == Inner(rows[n]);
    RowRead(rows[n]);
    CellCount(RowOf(CellMatches(Inner(rows[n]))), rows[n]);
    if rows[n].cells != [] {
      ks := ks + [n];
    }
  }

  lemma CellCount(row: Row, r: RowSource)
    requires RowReads(row, r)
    ensures row.cells == [] <==> r.cells == []
  {
  }

  /** What is found in a table: its rows that have cells, in order, each with its cells rendered, whatever the
      attributes, whether cells are closed or not, and whatever else stands between rows. */
  lemma TableIsRead(rows: seq<RowSource>, rest: string) returns (ks: seq<nat>)
    requires ValidRows(rows) && NoRowTag(rest)
    ensures var found := RowsOf(TableHtml(rows, rest));
            && |ks| == |found| && (forall i, j | 0 <= i < j < |ks| :: ks[i] < ks[j])
            && (forall i | 0 <= i < |ks| ::
                  ks[i] < |rows| && rows[ks[i]].cells != [] && RowReads(found[i], rows[ks[i]]))
            && (forall k: nat | k < |rows| && rows[k].cells != [] :: k in ks)
  {
    hide RowMatches, RowsFrom, TableHtml, Inners, RowReads, ValidRows, NoRowTag;
    RowsFound(rows, rest);
    ks := RowsRead(rows);
  }

  /** What holds no row is returned as it is. */
  lemma UnreadableStays(html: string)
    requires NoRowTag(html)
    ensures ConvertHtmlTable(html) == html
  {
    hide RowMatches;
    RowsSkip(html, []);
    RowsParts([]);
    assert html + [] == html;
  }
}
