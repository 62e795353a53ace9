/** `convertHtmlTable`: finding a table's rows and cells and writing them as markdown lines. */
module HtmlTable {
  import opened Text
  import opened Lines
  import opened Trackers
  import opened Splitter
  import opened HtmlCell
  import opened Patterns

  // ------------------------------------------------------- rows and cells

  datatype RowMatch = RowMatch(inner: string, len: nat)

  /** `ROW` at the front. */
  function RowAt(s: string): (r: Option<RowMatch>)
    ensures r.Some? ==> 0 < r.value.len <= |s|
  {
    if !MatchesAt(s, 0, "<tr") then None
    else
      match Find(s[3..], Exactly(">"))
      case None => None
      case Some(k) =>
        var from := k + 4;
        match Find(s[from..], AnyCase("</tr>"))
        case None => None
        case Some(j) => Some(RowMatch(s[from..from + j], from + j + 5))
  }

  /** `matchAll(ROW)`: what the rows hold. */
  function RowMatches(html: string): seq<string>
    decreases |html|
  {
    if html == [] then []
    else
      match RowAt(html)
      case Some(m) => [m.inner] + RowMatches(html[m.len..])
      case None => RowMatches(html[1..])
  }

  /** A cell as it is matched: whether its tag is `th`, and what it holds. */
  datatype RawCell = RawCell(header: bool, html: string)

  datatype CellMatch = CellMatch(cell: RawCell, len: nat)

  predicate CellOpens(s: string) {
    (MatchesAt(s, 0, "<td") || MatchesAt(s, 0, "<th")) && Find(s[3..], Exactly(">")).Some?
  }

  predicate StopsCell(s: string) {
    s == [] || SpacedLen(s, "</td") > 0 || SpacedLen(s, "</th") > 0 || CellOpens(s)
  }

  /** How far a cell's content goes: to a closing tag, the next cell, or the end. */
  function ContentLen(s: string): (n: nat)
    ensures n <= |s|
  {
    if StopsCell(s) then 0 else 1 + ContentLen(s[1..])
  }

  /** `CELL` at the front; what ends the content is not part of the match. */
  function CellAt(s: string): (r: Option<CellMatch>)
    ensures r.Some? ==> 0 < r.value.len <= |s|
  {
    if !CellOpens(s) then None
    else
      var from := Find(s[3..], Exactly(">")).value + 4;
      var n := ContentLen(s[from..]);
      Some(CellMatch(RawCell(MatchesAt(s, 0, "<th"), s[from..from + n]), from + n))
  }

  /** `matchAll(CELL)`. */
  function CellMatches(inner: string): seq<RawCell>
    decreases |inner|
  {
    if inner == [] then []
    else
      match CellAt(inner)
      case Some(m) => [m.cell] + CellMatches(inner[m.len..])
      case None => CellMatches(inner[1..])
  }

  datatype Row = Row(isHeader: bool, cells: seq<string>)

  function RowOf(raw: seq<RawCell>): Row {
    if raw == [] then Row(false, [])
    else
      var before, last := RowOf(raw[..|raw| - 1]), raw[|raw| - 1];
      Row(before.isHeader || last.header, before.cells + [RenderCell(last.html)])
  }

  function RowsFrom(inners: seq<string>): seq<Row> {
    if inners == [] then []
    else
      var row := RowOf(CellMatches(inners[|inners| - 1]));
      RowsFrom(inners[..|inners| - 1]) + if row.cells != [] then [row] else []
  }

  function RowsOf(html: string): seq<Row> {
    RowsFrom(RowMatches(html))
  }

  method ParseRows(html: string) returns (rows: seq<Row>)
    ensures rows == RowsOf(html)
  {
    rows := [];
    hide RenderCell, CellMatches, RowMatches;
    var inners := RowMatches(html);
    for i := 0 to |inners|
      invariant rows == RowsFrom(inners[..i])
    {
      var raw := CellMatches(inners[i]);
      var cells: seq<string>, isHeader := [], false;
      for j := 0 to |raw|
        invariant Row(isHeader, cells) == RowOf(raw[..j])
      {
        assert raw[..j + 1][..j] == raw[..j];
        if raw[j].header {
          isHeader := true;
        }
        cells := cells + [RenderCell(raw[j].html)];
      }
      assert raw[..|raw|] == raw;
      assert inners[..i + 1][..i] == inners[..i];
      if |cells| > 0 {
        rows := rows + [Row(isHeader, cells)];
      }
    }
    assert inners[..|inners|] == inners;
  }

  function RowLine(cells: seq<string>): string {
    "| " + Join(cells, " | ") + " |"
  }

  function ItemLine(cells: seq<string>): string {
    "- " + Join(cells, " \U{2014} ")
  }

  function Dashes(width: nat): seq<string> {
    seq(width, i => "---")
  }

  function Header(rows: seq<Row>): Option<Row> {
    if rows == [] then None else if rows[0].isHeader then Some(rows[0]) else Header(rows[1..])
  }

  function Body(rows: seq<Row>): seq<string> {
    if rows == [] then []
    else (if rows[0].isHeader then [] else [RowLine(rows[0].cells)]) + Body(rows[1..])
  }

  function Items(rows: seq<Row>): seq<string> {
    if rows == [] then [] else [ItemLine(rows[0].cells)] + Items(rows[1..])
  }

  /** The lines of the converted table; None when there is no row to convert. */
  function TableLines(rows: seq<Row>): Option<seq<string>> {
    if rows == [] then None
    else
      match Header(rows)
      case None => Some(Items(rows))
      case Some(header) => Some([RowLine(header.cells), RowLine(Dashes(|header.cells|))] + Body(rows))
  }

  function ConvertHtmlTable(html: string): string {
    match TableLines(RowsOf(html))
    case None => html
    case Some(lines) => Join(lines, "\n")
  }

  // ---------------------------------------------------------- reading a row

  /** How markdown reads a row: cut at every pipe that is not escaped. */
  function CutAtPipes(backslash: bool, s: string): (r: seq<string>)
    ensures r != []
    decreases s
  {
    if s == [] then [[]]
    else
      var rest := CutAtPipes(s[0] == '\\', s[1..]);
      if s[0] == '|' && !backslash then [[]] + rest else [[s[0]] + rest[0]] + rest[1..]
  }

  function Padded(cells: seq<string>): seq<string> {
    if cells == [] then [] else [" " + cells[0] + " "] + Padded(cells[1..])
  }

  /** What a row reads as: its cells, and nothing before the first and after the last pipe. */
  function Framed(cells: seq<string>): seq<string> {
    [[]] + Padded(cells) + [[]]
  }

  lemma {:induction false} CutFirst(backslash: bool, a: string, rest: string)
    requires PipesAfter(backslash, a) && (if a == [] then !backslash else a[|a| - 1] != '\\')
    ensures CutAtPipes(backslash, a + "|" + rest) == [a] + CutAtPipes(false, rest)
    decreases a
  {
    if a == [] {
      assert a + "|" + rest == ['|'] + rest;
      assert (['|'] + rest)[1..] == rest;
    } else {
      assert (a + "|" + rest)[1..] == a[1..] + "|" + rest;
      CutFirst(a[0] == '\\', a[1..], rest);
      assert [a[0]] + a[1..] == a;
    }
  }

  lemma PaddedPipes(cell: string)
    requires FitsInCell(cell)
    ensures PipesAfter(false, " " + cell + " ")
  {
    var s := " " + cell + " ";
    assert forall i | 0 <= i < |cell| :: s[i + 1] == cell[i];
    PipesAfterIff(false, s);
  }

  lemma {:induction false} CutRow(cells: seq<string>)
    requires cells != [] && forall i | 0 <= i < |cells| :: FitsInCell(cells[i])
    ensures CutAtPipes(false, " " + Join(cells, " | ") + " |") == Padded(cells) + [[]]
  {
    var first := " " + cells[0] + " ";
    PaddedPipes(cells[0]);
    hide FitsInCell, PipesAfter;
    if |cells| == 1 {
      assert " " + Join(cells, " | ") + " |" == first + "|" + "";
      CutFirst(false, first, "");
      assert Padded(cells[1..]) == [];
    } else {
      var rest := " " + Join(cells[1..], " | ") + " |";
      assert " " + Join(cells, " | ") + " |" == first + "|" + rest;
      CutFirst(false, first, rest);
      CutRow(cells[1..]);
      assert Padded(cells) + [[]] == [first] + (Padded(cells[1..]) + [[]]);
    }
  }

  lemma RowLineReadsBack(cells: seq<string>)
    requires cells != [] && forall i | 0 <= i < |cells| :: FitsInCell(cells[i])
    ensures CutAtPipes(false, RowLine(cells)) == Framed(cells)
  {
    CutRow(cells);
    assert PipesAfter(false, []);
    hide FitsInCell, Join, Padded, CutAtPipes, PipesAfter;
    FrameParts(Join(cells, " | "));
    CutFirst(false, [], " " + Join(cells, " | ") + " |");
  }

  lemma FrameParts(middle: string)
    ensures "| " + middle + " |" == [] + "|" + (" " + middle + " |")
  {
  }

  // -------------------------------------------------------- whole tables

  predicate RowFits(row: Row) {
    row.cells != [] && forall i | 0 <= i < |row.cells| :: FitsInCell(row.cells[i])
  }

  lemma {:induction false} RowOfFits(raw: seq<RawCell>)
    ensures var row := RowOf(raw);
            |row.cells| == |raw| && (raw != [] ==> RowFits(row))
  {
    hide FitsInCell, RenderCell;
    if raw != [] {
      RowOfFits(raw[..|raw| - 1]);
      CellFits(raw[|raw| - 1].html);
    }
  }

  lemma {:induction false} RowsFit(inners: seq<string>)
    ensures forall i | 0 <= i < |RowsFrom(inners)| :: RowFits(RowsFrom(inners)[i])
  {
    hide RowFits, RowOf, CellMatches;
    if inners != [] {
      RowsFit(inners[..|inners| - 1]);
      RowOfFits(CellMatches(inners[|inners| - 1]));
    }
  }

  lemma {:induction false} JoinWithout(parts: seq<string>, sep: string, c: char)
    requires c !in sep && forall i | 0 <= i < |parts| :: c !in parts[i]
    ensures c !in Join(parts, sep)
  {
    if |parts| > 1 { JoinWithout(parts[1..], sep, c); }
  }

  predicate OneLine(s: string) {
    '\n' !in s
  }

  lemma RowLineShape(cells: seq<string>)
    requires forall i | 0 <= i < |cells| :: FitsInCell(cells[i])
    ensures OneLine(RowLine(cells)) && OneLine(ItemLine(cells))
    ensures IsPipeRow(RowLine(cells)) && RowLine(cells)[0] == '|'
  {
    forall i | 0 <= i < |cells|
      ensures '\n' !in cells[i]
    {
      assert IsWhite('\n');
    }
    JoinWithout(cells, " | ", '\n');
    JoinWithout(cells, " \U{2014} ", '\n');
    hide Join, FitsInCell;
    assert TrimStart(RowLine(cells)) == RowLine(cells);
  }

  lemma DashesFit(width: nat)
    ensures forall i | 0 <= i < |Dashes(width)| :: FitsInCell(Dashes(width)[i])
  {
    assert FitsInCell("---");
  }

  predicate TableLine(line: string) {
    OneLine(line) && IsPipeRow(line) && line[0] == '|'
  }

  lemma {:induction false} BodyShape(rows: seq<Row>)
    requires forall i | 0 <= i < |rows| :: RowFits(rows[i])
    ensures forall i | 0 <= i < |Body(rows)| :: TableLine(Body(rows)[i])
    ensures |Items(rows)| == |rows| && forall i | 0 <= i < |rows| :: OneLine(Items(rows)[i])
    ensures Header(rows).Some? ==> RowFits(Header(rows).value)
  {
    if rows != [] {
      BodyShape(rows[1..]);
      RowLineShape(rows[0].cells);
      hide FitsInCell, RowLine, ItemLine;
    }
  }

  /** The places of the rows that are no headers. */
  function PlainAt(rows: seq<Row>, from: nat): seq<nat>
    requires from <= |rows|
    decreases |rows| - from
  {
    if from == |rows| then []
    else if rows[from].isHeader then PlainAt(rows, from + 1)
    else [from] + PlainAt(rows, from + 1)
  }

  function HeaderCount(rows: seq<Row>): nat {
    if rows == [] then 0 else (if rows[0].isHeader then 1 else 0) + HeaderCount(rows[1..])
  }

  /** h is the first header row; ks are the rows that are none, in order. */
  ghost predicate LinesUp(rows: seq<Row>, h: nat, ks: seq<nat>) {
    && h < |rows| && rows[h].isHeader && (forall i | 0 <= i < h :: !rows[i].isHeader)
    && (forall i, j | 0 <= i < j < |ks| :: ks[i] < ks[j])
    && (forall i | 0 <= i < |ks| :: ks[i] < |rows| && !rows[ks[i]].isHeader)
    && (forall i: nat | i < |rows| && !rows[i].isHeader :: i in ks)
  }

  predicate PlainList(rows: seq<Row>, from: nat, ks: seq<nat>) {
    && (forall i, j | 0 <= i < j < |ks| :: ks[i] < ks[j])
    && (forall i | 0 <= i < |ks| :: from <= ks[i] < |rows| && !rows[ks[i]].isHeader)
  }

  lemma {:induction false} PlainSorted(rows: seq<Row>, from: nat)
    requires from <= |rows|
    ensures PlainList(rows, from, PlainAt(rows, from))
    decreases |rows| - from
  {
    if from < |rows| {
      PlainSorted(rows, from + 1);
      PlainCons(rows, from, PlainAt(rows, from + 1));
      hide PlainList;
    }
  }

  lemma PlainCons(rows: seq<Row>, from: nat, ks: seq<nat>)
    requires from < |rows| && PlainList(rows, from + 1, ks)
    ensures PlainList(rows, from, ks) && (!rows[from].isHeader ==> PlainList(rows, from, [from] + ks))
  {
  }

  lemma {:induction false} PlainComplete(rows: seq<Row>, from: nat, i: nat)
    requires from <= i < |rows| && !rows[i].isHeader
    ensures i in PlainAt(rows, from)
    decreases |rows| - from
  {
    if from < i { PlainComplete(rows, from + 1, i); }
  }

  lemma PlainPlaces(rows: seq<Row>)
    ensures var ks := PlainAt(rows, 0);
            && (forall i, j | 0 <= i < j < |ks| :: ks[i] < ks[j])
            && (forall i | 0 <= i < |ks| :: ks[i] < |rows| && !rows[ks[i]].isHeader)
            && (forall i: nat | i < |rows| && !rows[i].isHeader :: i in ks)
  {
    PlainSorted(rows, 0);
    hide PlainAt;
    forall i: nat | i < |rows| && !rows[i].isHeader
      ensures i in PlainAt(rows, 0)
    {
      PlainComplete(rows, 0, i);
    }
  }

  lemma {:induction false} BodyLines(rows: seq<Row>, from: nat)
    requires from <= |rows|
    ensures var ks, body := PlainAt(rows, from), Body(rows[from..]);
            && |body| == |ks| == |rows| - from - HeaderCount(rows[from..])
            && forall i | 0 <= i < |ks| :: ks[i] < |rows| && body[i] == RowLine(rows[ks[i]].cells)
    decreases |rows| - from
  {
    hide RowLine;
    if from < |rows| {
      BodyLines(rows, from + 1);
      assert rows[from..][1..] == rows[from + 1..];
    }
  }

  lemma {:induction false} FirstHeader(rows: seq<Row>) returns (h: nat)
    requires Header(rows).Some?
    ensures h < |rows| && rows[h].isHeader && Header(rows) == Some(rows[h])
    ensures forall i | 0 <= i < h :: !rows[i].isHeader
  {
    if rows[0].isHeader {
      h := 0;
    } else {
      h := FirstHeader(rows[1..]);
      h := h + 1;
      assert forall i | 1 <= i < h :: rows[i] == rows[1..][i - 1];
    }
  }

  lemma {:induction false} NoHeader(rows: seq<Row>)
    ensures Header(rows).None? <==> HeaderCount(rows) == 0
  {
    if rows != [] { NoHeader(rows[1..]); }
  }

  lemma {:induction false} ItemLines(rows: seq<Row>)
    ensures |Items(rows)| == |rows| && forall i | 0 <= i < |rows| :: Items(rows)[i] == ItemLine(rows[i].cells)
  {
    hide ItemLine;
    if rows != [] { ItemLines(rows[1..]); }
  }

  /** Without a header row every row is one line. */
  lemma ListShape(html: string)
    requires RowsOf(html) != [] && HeaderCount(RowsOf(html)) == 0
    ensures var rows, lines := RowsOf(html), Split(ConvertHtmlTable(html), '\n');
            |lines| == |rows| && forall i | 0 <= i < |rows| :: lines[i] == "- " + Join(rows[i].cells, " \U{2014} ")
  {
    hide RowsOf, RowFits, FitsInCell, RowLine, Join, Body, Dashes, IsPipeRow, OneLine, Split, Items;
    var rows := RowsOf(html);
    RowsOfFit(html);
    BodyShape(rows);
    ItemLines(rows);
    NoHeader(rows);
    LinesReadBack(Items(rows));
  }

  lemma RowsOfFit(html: string)
    ensures forall i | 0 <= i < |RowsOf(html)| :: RowFits(RowsOf(html)[i])
  {
    RowsFit(RowMatches(html));
  }

  /** With a header row the lines are the first header's cells, the dashes, and then every row that is no header,
      in order; each is a newline-free pipe row. Rows other than these are dropped: there is a line for every row
      (and one for the dashes) exactly if there is just one header row. */
  lemma ConvertedShape(html: string) returns (h: nat, ks: seq<nat>)
    requires HeaderCount(RowsOf(html)) > 0
    ensures LinesUp(RowsOf(html), h, ks)
    ensures var rows, lines := RowsOf(html), Split(ConvertHtmlTable(html), '\n');
            && TableLines(rows) == Some(lines)
            && |lines| == |ks| + 2 == |rows| + 2 - HeaderCount(rows)
            && lines[0] == RowLine(rows[h].cells) && lines[1] == RowLine(Dashes(|rows[h].cells|))
            && (forall i | 0 <= i < |ks| :: lines[i + 2] == RowLine(rows[ks[i]].cells))
            && (forall i | 0 <= i < |lines| :: TableLine(lines[i]))
            && (|lines| == |rows| + 1 <==> HeaderCount(rows) == 1)
  {
    hide RowsOf, RowFits, HeaderCount, LinesUp, RowLine, Dashes, TableLine, Split, TableLines;
    RowsOfFit(html);
    h, ks := HeaderedLines(RowsOf(html));
    var lines := TableLines(RowsOf(html)).value;
    LinesReadBack(lines);
  }

  lemma HeaderedLines(rows: seq<Row>) returns (h: nat, ks: seq<nat>)
    requires HeaderCount(rows) > 0 && forall i | 0 <= i < |rows| :: RowFits(rows[i])
    ensures LinesUp(rows, h, ks) && TableLines(rows).Some?
    ensures var lines := TableLines(rows).value;
            && |lines| == |ks| + 2 == |rows| + 2 - HeaderCount(rows)
            && lines[0] == RowLine(rows[h].cells) && lines[1] == RowLine(Dashes(|rows[h].cells|))
            && (forall i | 0 <= i < |ks| :: lines[i + 2] == RowLine(rows[ks[i]].cells))
            && (forall i | 0 <= i < |lines| :: TableLine(lines[i]) && OneLine(lines[i]))
  {
    NoHeader(rows);
    h := FirstHeader(rows);
    PlainPlaces(rows);
    ks := PlainAt(rows, 0);
    BodyLines(rows, 0);
    assert rows[0..] == rows;
    BodyShape(rows);
    HeaderShape(rows[h]);
    hide RowFits, RowLine, Dashes, IsPipeRow, Body, HeaderCount, Header, PlainAt;
    var lines := [RowLine(rows[h].cells), RowLine(Dashes(|rows[h].cells|))] + Body(rows);
    assert TableLines(rows) == Some(lines);
    forall i | 0 <= i < |lines|
      ensures TableLine(lines[i])
    {
      assert i >= 2 ==> lines[i] == Body(rows)[i - 2];
    }
  }

  /** Cutting the converted lines at their unescaped pipes gives back the cells of the first header row and of
      every row that is no header, in order and however many pipes they hold. */
  lemma RowReadsBack(html: string) returns (h: nat, ks: seq<nat>)
    requires HeaderCount(RowsOf(html)) > 0
    ensures LinesUp(RowsOf(html), h, ks)
    ensures var rows, lines := RowsOf(html), Split(ConvertHtmlTable(html), '\n');
            && |lines| == |ks| + 2 && CutAtPipes(false, lines[0]) == Framed(rows[h].cells)
            && CutAtPipes(false, lines[1]) == Framed(seq(|rows[h].cells|, i => "---"))
            && forall i | 0 <= i < |ks| :: CutAtPipes(false, lines[i + 2]) == Framed(rows[ks[i]].cells)
  {
    hide RowsOf, HeaderCount, TableLine, CutAtPipes, Framed, RowLine, Split, ConvertHtmlTable, FitsInCell, TableLines;
    h, ks := ConvertedShape(html);
    var rows := RowsOf(html);
    RowsOfFit(html);
    RowLineReadsBack(rows[h].cells);
    DashesFit(|rows[h].cells|);
    RowLineReadsBack(Dashes(|rows[h].cells|));
    DashesAre(|rows[h].cells|);
    forall i | 0 <= i < |ks|
      ensures CutAtPipes(false, RowLine(rows[ks[i]].cells)) == Framed(rows[ks[i]].cells)
    {
      RowLineReadsBack(rows[ks[i]].cells);
    }
  }

  lemma DashesAre(width: nat)
    ensures Dashes(width) == seq(width, i => "---")
  {
  }

  lemma LinesReadBack(lines: seq<string>)
    requires lines != [] && forall i | 0 <= i < |lines| :: OneLine(lines[i])
    ensures Split(Join(lines, "\n"), '\n') == lines
  {
    SplitJoin(lines, '\n');
  }

  lemma HeaderShape(h: Row)
    requires RowFits(h)
    ensures TableLine(RowLine(h.cells)) && TableLine(RowLine(Dashes(|h.cells|)))
  {
    DashesFit(|h.cells|);
    RowLineShape(h.cells);
    RowLineShape(Dashes(|h.cells|));
  }

  // ------------------------------------------------- a row that is dropped

  /** Two rows of one header cell each. */
  function TwoHeaders(x: string, y: string): string {
    "<tr>" + HeaderCell(x) + "</tr>" + ("<tr>" + HeaderCell(y) + "</tr>")
  }

  function HeaderCell(x: string): string {
    "<th>" + x + "</th>"
  }

  predicate NoMatchIn(pre: string, rest: string, pattern: string) {
    forall i | 0 <= i < |pre| :: !MatchesAt(pre + rest, i, pattern)
  }

  lemma MatchesLater(s: string, i: nat, pattern: string)
    requires s != []
    ensures MatchesAt(s[1..], i, pattern) == MatchesAt(s, i + 1, pattern)
  {
    assert forall j | 0 <= j < |s| - 1 :: s[1..][j] == s[j + 1];
  }

  lemma {:induction false} FindSkips(pre: string, rest: string, pattern: string)
    requires pattern != [] && NoMatchIn(pre, rest, pattern) && MatchesAt(rest, 0, pattern)
    ensures Find(pre + rest, AnyCase(pattern)) == Some(|pre|)
  {
    hide MatchesAt;
    var s := pre + rest;
    if pre == [] {
      assert s == rest;
      MatchesFits(rest, pattern);
    } else {
      assert s[1..] == pre[1..] + rest;
      forall i | 0 <= i < |pre| - 1
        ensures !MatchesAt(pre[1..] + rest, i, pattern)
      {
        MatchesLater(s, i, pattern);
      }
      FindSkips(pre[1..], rest, pattern);
    }
  }

  lemma MatchesFits(s: string, pattern: string)
    ensures MatchesAt(s, 0, pattern) ==> |pattern| <= |s|
  {
  }

  lemma RowAtOf(cell: string, after: string)
    requires NoMatchIn(cell, after, "</tr>") && MatchesAt(after, 0, "</tr>")
    ensures RowAt("<tr>" + cell + after) == Some(RowMatch(cell, |cell| + 9))
  {
    hide MatchesAt, NoMatchIn, Find;
    var s := "<tr>" + cell + after;
    OpensRow(cell + after);
    assert "<tr>" + (cell + after) == s;
    FindSkips(cell, after, "</tr>");
    assert s[4..] == cell + after && s[4..4 + |cell|] == cell;
  }

  lemma OpensRow(rest: string)
    ensures var s := "<tr>" + rest;
            |s| >= 4 && MatchesAt(s, 0, "<tr") && Find(s[3..], Exactly(">")) == Some(0) && s[4..] == rest
  {
    StartsWith("<tr>", rest);
  }

  lemma StartsWith(tag: string, rest: string)
    requires |tag| == 4 && tag[0] == '<' && tag[3] == '>'
    ensures var s := tag + rest; s[0] == '<' && s[1] == tag[1] && s[2] == tag[2] && s[3] == '>' && s[4..] == rest
  {
  }

  lemma RowOfHeader(x: string, rest: string)
    requires '<' !in x
    ensures RowAt("<tr>" + HeaderCell(x) + "</tr>" + rest) == Some(RowMatch(HeaderCell(x), |x| + 18))
  {
    var cell, after := HeaderCell(x), "</tr>" + rest;
    assert "<tr>" + cell + "</tr>" + rest == "<tr>" + cell + after;
    NoRowEndIn(x, after);
    assert MatchesAt(after, 0, "</tr>");
    hide RowAt, MatchesAt, NoMatchIn;
    RowAtOf(cell, after);
  }

  lemma NoRowEndIn(x: string, after: string)
    requires '<' !in x
    ensures NoMatchIn(HeaderCell(x), after, "</tr>")
  {
    var cell := HeaderCell(x);
    var s := cell + after;
    forall i | 0 <= i < |cell|
      ensures !MatchesAt(s, i, "</tr>")
    {
      if i == 0 {
        Mismatch(s, i, "</tr>", 1);
      } else if i == 4 + |x| {
        Mismatch(s, i, "</tr>", 3);
      } else {
        assert 4 <= i < 4 + |x| ==> s[i] == x[i - 4];
        assert s[i + 0] != '<';
        Mismatch(s, i, "</tr>", 0);
      }
    }
  }

  lemma {:induction false} ContentOfHeader(x: string)
    requires '<' !in x
    ensures ContentLen(x + "</th>") == |x|
  {
    var s := x + "</th>";
    if x == [] {
      assert s == "</th>" && MatchesAt(s, 0, "</th") && s[4..] == ">" && TrimStart(">") == ">";
    } else {
      NoTag(s);
      assert s[1..] == x[1..] + "</th>";
      ContentOfHeader(x[1..]);
    }
  }

  lemma NoTag(s: string)
    requires s != [] && s[0] != '<'
    ensures !StopsCell(s) && CellAt(s).None? && RowAt(s).None?
  {
    assert forall pattern | MatchesAt(s, 0, pattern) && pattern != [] :: LowerAscii(s[0 + 0]) == pattern[0];
  }

  lemma HeaderCellAt(x: string)
    requires '<' !in x
    ensures CellAt(HeaderCell(x)) == Some(CellMatch(RawCell(true, x), 4 + |x|))
  {
    hide Find, ContentLen, MatchesAt;
    var s := HeaderCell(x);
    OpensHeader(x);
    ContentOfHeader(x);
    assert s[4..] == x + "</th>" && s[4..4 + |x|] == x;
  }

  lemma OpensHeader(x: string)
    ensures var s := HeaderCell(x); |s| > 4 && MatchesAt(s, 0, "<th") && Find(s[3..], Exactly(">")) == Some(0)
  {
    var s := HeaderCell(x);
    assert s[3..][0] == '>' && s[3..][..1] == ">";
    assert MatchesAt(s, 0, "<th");
  }

  lemma CellsNext(inner: string)
    requires inner != [] && CellAt(inner).Some?
    ensures CellMatches(inner) == [CellAt(inner).value.cell] + CellMatches(inner[CellAt(inner).value.len..])
  {
    hide CellAt;
  }

  lemma CellOfHeader(x: string)
    requires '<' !in x
    ensures CellMatches(HeaderCell(x)) == [RawCell(true, x)]
  {
    hide CellAt, CellMatches;
    HeaderCellAt(x);
    assert HeaderCell(x)[4 + |x|..] == "</th>" && HeaderCell(x) != [];
    CellsNext(HeaderCell(x));
    NoCellsInEnd();
  }

  lemma NoCellsInEnd()
    ensures CellMatches("</th>") == []
  {
    var s := "</th>";
    Mismatch(s, 0, "<td", 1);
    Mismatch(s, 0, "<th", 1);
    assert CellAt(s).None?;
    assert s[1..] == "/th>" && s[1..][1..] == "th>" && s[1..][1..][1..] == "h>" && s[1..][1..][1..][1..] == ">";
    NoTag("/th>");
    NoTag("th>");
    NoTag("h>");
    NoTag(">");
    hide CellAt;
    assert CellMatches(">") == CellMatches([]) == [];
    assert CellMatches("h>") == [];
    assert CellMatches("th>") == [];
    assert CellMatches("/th>") == [];
  }

  lemma RowsOfTwoHeaders(x: string, y: string)
    requires '<' !in x && '<' !in y
    ensures RowMatches(TwoHeaders(x, y)) == [HeaderCell(x), HeaderCell(y)]
  {
    var second := "<tr>" + HeaderCell(y) + "</tr>";
    assert second + [] == second;
    hide RowMatches, HeaderCell;
    RowThen(x, second);
    RowThen(y, []);
    NoRows();
  }

  lemma NoRows()
    ensures RowMatches([]) == []
  {
  }

  lemma RowThen(x: string, rest: string)
    requires '<' !in x
    ensures RowMatches("<tr>" + HeaderCell(x) + "</tr>" + rest) == [HeaderCell(x)] + RowMatches(rest)
  {
    var s := "<tr>" + HeaderCell(x) + "</tr>" + rest;
    RowOfHeader(x, rest);
    assert s[|x| + 18..] == rest;
    hide RowAt, HeaderCell;
  }

  /** A second header row leaves no trace: whatever it holds, the table comes out the same. */
  lemma SecondHeaderIsLost(x: string, y: string)
    requires '<' !in x && '<' !in y
    ensures RowsOf(TwoHeaders(x, y)) == [Row(true, [RenderCell(x)]), Row(true, [RenderCell(y)])]
    ensures ConvertHtmlTable(TwoHeaders(x, y)) == RowLine([RenderCell(x)]) + "\n" + RowLine(["---"])
  {
    RowsOfTwoHeaders(x, y);
    CellOfHeader(x);
    CellOfHeader(y);
    OneCellRow(x);
    OneCellRow(y);
    hide RowMatches, CellMatches, RowOf, RenderCell, RowLine, TwoHeaders, HeaderCell;
    TwoRows(HeaderCell(x), HeaderCell(y));
    TwoHeaderLines(Row(true, [RenderCell(x)]), Row(true, [RenderCell(y)]));
    hide RowsOf, TableLines;
    JoinTwo(RowLine([RenderCell(x)]), RowLine(["---"]));
  }

  lemma JoinTwo(a: string, b: string)
    ensures Join([a, b], "\n") == a + "\n" + b
  {
    assert [a, b][1..] == [b];
  }

  lemma TwoHeaderLines(a: Row, b: Row)
    requires a.isHeader && b.isHeader && |a.cells| == 1
    ensures TableLines([a, b]) == Some([RowLine(a.cells), RowLine(["---"])])
  {
    hide RowLine;
    assert [a, b][1..] == [b] && [b][1..] == [];
    assert Body([]) == [] && Body([b]) == [] && Body([a, b]) == [];
    assert Dashes(1) == ["---"];
    assert Header([a, b]) == Some(a);
    assert TableLines([a, b]).value == [RowLine(a.cells), RowLine(["---"])];
  }

  lemma OneCellRow(x: string)
    ensures RowOf([RawCell(true, x)]) == Row(true, [RenderCell(x)])
  {
    hide RenderCell;
    assert [RawCell(true, x)][..0] == [];
  }

  lemma TwoRows(a: string, b: string)
    requires RowOf(CellMatches(a)).cells != [] && RowOf(CellMatches(b)).cells != []
    ensures RowsFrom([a, b]) == [RowOf(CellMatches(a)), RowOf(CellMatches(b))]
  {
    hide RowOf, CellMatches;
    assert [a, b][..1] == [a] && [a][..0] == [];
    assert RowsFrom([]) == [] && RowsFrom([a]) == [RowOf(CellMatches(a))];
  }

  // ------------------------------------------------------ and the chunker

  lemma Middle<T>(a: seq<T>, b: seq<T>, c: seq<T>, k: nat)
    requires k < |b|
    ensures (a + b + c)[|a| + k] == b[k] && (a + b + c)[|a|..|a| + k] == b[..k]
  {
  }

  lemma PipeIsHeld(cnt: TokenCount, lines: seq<string>, p: nat)
    requires p < |lines| && PipeContinues(cnt, lines, p)
    ensures Held(cnt, lines, p)
  {
  }

  lemma RunStaysWhole(cnt: TokenCount, lim: Limits, before: seq<string>, table: seq<string>, after: seq<string>)
    requires table != [] && PipeStartsAt(cnt, before + table + after, |before|)
    requires forall i | 0 <= i < |table| :: IsPipeRow(table[i])
    requires forall k | 0 < k < |table| :: SumTokens(cnt, table[..k]) <= UNCLOSED_TABLE_TOKEN_BOUND
    ensures InOnePart(Parts(cnt, lim, before + table + after), |before|, |before| + |table| - 1)
  {
    hide Parts, PipeStartsAt, PipeContinues, IsPipeRow, InOnePart, SumTokens, Held;
    var lines, a := before + table + after, |before|;
    var b := a + |table| - 1;
    forall p | a <= p <= b
      ensures IsPipeRow(lines[p])
      ensures lines[a..p] == table[..p - a]
    {
      Middle(before, table, after, p - a);
    }
    PipeRunHolds(cnt, lines, a, b);
    forall p | a < p <= b
      ensures Held(cnt, lines, p)
    {
      PipeIsHeld(cnt, lines, p);
    }
    AtomicRegions(cnt, lim, lines, a, b);
  }

  /** The converter and the chunker agree: a converted table with a header, wherever it starts a run of rows
      outside fences and other tables, is never cut as long as its running total stays within the bound. */
  lemma ConvertedTableStaysWhole(cnt: TokenCount, lim: Limits, before: seq<string>, after: seq<string>, html: string)
    requires HeaderCount(RowsOf(html)) > 0
    requires var table := Split(ConvertHtmlTable(html), '\n');
             && PipeStartsAt(cnt, before + table + after, |before|)
             && forall k | 0 < k < |table| :: SumTokens(cnt, table[..k]) <= UNCLOSED_TABLE_TOKEN_BOUND
    ensures var table := Split(ConvertHtmlTable(html), '\n');
            InOnePart(Parts(cnt, lim, before + table + after), |before|, |before| + |table| - 1)
  {
    hide RowsOf, TableLines, HeaderCount, Parts, PipeStartsAt, IsPipeRow, InOnePart, SumTokens, ConvertHtmlTable, Split;
    var h, ks := ConvertedShape(html);
    RunStaysWhole(cnt, lim, before, Split(ConvertHtmlTable(html), '\n'), after);
  }
}
