/** From the document's tables to the chunks. Sections are cut without regard to tables; a table of the document
    reaches one chunk when no heading inside it is consumed and the trackers are outside every region before it. */
module DocumentTables {
  import opened Text
  import opened Lines
  import opened Trackers
  import opened Splitter
  import opened Chunker
  import opened Regions

  // --------------------------------------------------- agreeing trackers

  predicate Outside(s: Scan) {
    !s.fence.inside && !s.table.inside && !s.pipe.inside
  }

  /** Equal, but for what a tracker remembers of a region it is outside of. */
  predicate SameScan(s: Scan, t: Scan) {
    && Agree(s.fence, t.fence)
    && s.table.inside == t.table.inside && (s.table.inside ==> s.table == t.table)
    && s.pipe.inside == t.pipe.inside && (s.pipe.inside ==> s.pipe == t.pipe)
  }

  lemma SameStep(cnt: TokenCount, s: Scan, t: Scan, line: string)
    requires SameScan(s, t)
    ensures SameScan(ScanStep(cnt, s, line), ScanStep(cnt, t, line))
    ensures FenceStays(s.fence, line) == FenceStays(t.fence, line)
    ensures TableStays(s.table, line) == TableStays(t.table, line) && PipeStays(s.pipe, line) == PipeStays(t.pipe, line)
    ensures OpensRegion(s, line) == OpensRegion(t, line)
  {
    hide IsFence, QuoteDepth, TableOpens, TableCloses, IsPipeRow;
  }

  /** Once they are outside every region, the trackers read on as fresh ones would. */
  lemma {:induction false} ScanShift(cnt: TokenCount, lines: seq<string>, o: nat, rest: seq<string>, j: nat)
    requires o + j <= |lines| && j <= |rest| && lines[o..o + j] == rest[..j]
    requires Outside(ScanTo(cnt, lines, o))
    ensures SameScan(ScanTo(cnt, lines, o + j), ScanTo(cnt, rest, j))
    decreases j
  {
    hide ScanStep;
    if j > 0 {
      assert lines[o..o + j][..j - 1] == lines[o..o + j - 1] && rest[..j][..j - 1] == rest[..j - 1];
      ScanShift(cnt, lines, o, rest, j - 1);
      assert lines[o + j - 1] == lines[o..o + j][j - 1] == rest[..j][j - 1] == rest[j - 1];
      SameStep(cnt, ScanTo(cnt, lines, o + j - 1), ScanTo(cnt, rest, j - 1), rest[j - 1]);
    }
  }

  lemma {:induction false} ScanOfPrefix(cnt: TokenCount, a: seq<string>, b: seq<string>, k: nat)
    requires k <= |a| <= |b| && a == b[..|a|]
    ensures ScanTo(cnt, a, k) == ScanTo(cnt, b, k)
  {
    hide ScanStep;
    if k > 0 { ScanOfPrefix(cnt, a, b, k - 1); }
  }

  /** Held alone is held wherever it stands behind lines that leave the trackers outside. */
  lemma HeldAgain(cnt: TokenCount, lines: seq<string>, x: nat, block: seq<string>, j: nat)
    requires x + |block| <= |lines| && lines[x..x + |block|] == block && j < |block|
    requires Outside(ScanTo(cnt, lines, x))
    ensures Held(cnt, lines, x + j) <==> Held(cnt, block, j)
  {
    hide ScanTo, FenceStays, TableStays, PipeStays, OpensRegion, SameScan, ScanStep, Outside;
    assert lines[x..x + |block|][..j] == lines[x..x + j];
    ScanShift(cnt, lines, x, block, j);
    assert lines[x + j] == block[j];
    SameStep(cnt, ScanTo(cnt, lines, x + j), ScanTo(cnt, block, j), block[j]);
  }

  // ------------------------------------------------------ merged sections

  predicate EndsOutside(cnt: TokenCount, lines: seq<string>) {
    Outside(ScanTo(cnt, lines, |lines|))
  }

  /** Every section but the last ends outside every region. */
  predicate AllEndOutside(cnt: TokenCount, sections: seq<Section>) {
    forall i | 0 <= i < |sections| - 1 :: EndsOutside(cnt, sections[i].lines)
  }

  lemma NothingIsOutside(cnt: TokenCount)
    ensures LinesOf([]) == [] && EndsOutside(cnt, [])
  {
  }

  lemma EndsOutsideConcat(cnt: TokenCount, a: seq<string>, b: seq<string>)
    requires EndsOutside(cnt, a) && EndsOutside(cnt, b)
    ensures EndsOutside(cnt, a + b)
  {
    hide ScanTo;
    ScanOfPrefix(cnt, a, a + b, |a|);
    assert (a + b)[|a|..|a| + |b|] == b && b[..|b|] == b;
    ScanShift(cnt, a + b, |a|, b, |b|);
  }

  lemma {:induction false} RangeEndsOutside(cnt: TokenCount, sections: seq<Section>, a: nat, h: nat)
    requires a <= h < |sections| && AllEndOutside(cnt, sections)
    ensures EndsOutside(cnt, LinesOf(sections[a..h]))
    decreases h
  {
    hide LinesOf, EndsOutside;
    if a == h {
      NothingIsOutside(cnt);
      assert sections[a..h] == [];
    } else {
      RangeEndsOutside(cnt, sections, a, h - 1);
      LinesOfNext(sections, a, h - 1);
      EndsOutsideConcat(cnt, LinesOf(sections[a..h - 1]), sections[h - 1].lines);
    }
  }

  /** The merged section's trackers are outside every region when they get to section h. */
  lemma MergedOutside(cnt: TokenCount, min: int, sections: seq<Section>, h: nat) returns (m: nat, o: nat)
    requires h < |sections| && AllEndOutside(cnt, sections)
    ensures m < |Merged(cnt, min, sections)|
    ensures var lines, own := Merged(cnt, min, sections)[m].lines, sections[h].lines;
            o + |own| <= |lines| && lines[o..o + |own|] == own && Outside(ScanTo(cnt, lines, o))
  {
    hide Merged, LinesOf, ScanTo, Outside;
    var a: nat;
    m, a := MergedAround(cnt, min, sections, h);
    var before, lines := LinesOf(sections[a..h]), Merged(cnt, min, sections)[m].lines;
    RangeEndsOutside(cnt, sections, a, h);
    o := |before|;
    BehindPrefix(before, sections[h].lines, lines);
    ScanOfPrefix(cnt, before, lines, o);
  }

  // ---------------------------------------------------------- the document

  predicate NoneConsumed(doc: seq<string>, a: nat, b: nat)
    requires b < |doc|
  {
    forall p | a <= p <= b :: !ConsumedAt(doc, p)
  }

  /** Where the section of line a starts: behind the last heading consumed before it. */
  function SectionStart(doc: seq<string>, a: nat): (start: nat)
    requires a <= |doc|
    ensures start <= a
  {
    if a == 0 || ConsumedAt(doc, a - 1) then a else SectionStart(doc, a - 1)
  }

  /** The trackers of its section are outside every region when they get to line a. */
  predicate OutsideBefore(cnt: TokenCount, doc: seq<string>, a: nat)
    requires a <= |doc|
  {
    EndsOutside(cnt, doc[SectionStart(doc, a)..a])
  }

  lemma {:induction false} SectionStartIs(doc: seq<string>, start: nat, a: nat)
    requires start <= a <= |doc| && (start == 0 || ConsumedAt(doc, start - 1))
    requires forall i | start <= i < a :: !ConsumedAt(doc, i)
    ensures SectionStart(doc, a) == start
    decreases a
  {
    hide ConsumedAt;
    if start < a { SectionStartIs(doc, start, a - 1); }
  }

  /** All the lines from a to b lie in one section. */
  ghost predicate InOneSection(doc: seq<string>, a: nat, b: nat) {
    exists h: nat, start: nat ::
      h < |Sections(doc)| && Spans(doc, Sections(doc)[h], start) && start <= a && b < start + |Sections(doc)[h].lines|
  }

  /** A stretch of the document stays in one section exactly if none of its lines is a consumed heading. */
  lemma OneSectionIff(doc: seq<string>, a: nat, b: nat)
    requires a <= b < |doc| && !Blank(doc[a])
    ensures InOneSection(doc, a, b) <==> NoneConsumed(doc, a, b)
  {
    hide Blank, Sections, ConsumedAt, Before, HeadingAbove;
    if NoneConsumed(doc, a, b) {
      var h, start := StretchInSection(doc, a, b);
    }
  }

  /** An HTML table that starts at line a goes on at line p, if it got there: its quote has not ended, the line
      before did not close it and the tokens so far keep within the bound. */
  predicate GoesOn(cnt: TokenCount, doc: seq<string>, a: nat, p: nat)
    requires a < p < |doc|
  {
    && QuoteDepth(doc[p]) >= QuoteDepth(doc[a]) && !TableCloses(doc[p - 1])
    && SumTokens(cnt, doc[a..p]) <= UNCLOSED_TABLE_TOKEN_BOUND
  }

  /** Line a starts an HTML table that goes on to line b. */
  predicate HtmlTable(cnt: TokenCount, doc: seq<string>, a: nat, b: nat) {
    && a <= b < |doc| && TableOpens(doc[a]) && !IsFence(doc[a])
    && forall p | a < p <= b :: GoesOn(cnt, doc, a, p)
  }

  /** A run of pipe rows within the bound. */
  predicate PipeTable(cnt: TokenCount, doc: seq<string>, a: nat, b: nat) {
    && a <= b < |doc| && (forall p | a <= p <= b :: IsPipeRow(doc[p]))
    && forall p | a < p <= b :: SumTokens(cnt, doc[a..p]) <= UNCLOSED_TABLE_TOKEN_BOUND
  }

  /** The converse of `TableBound`: such lines, read by fresh trackers, are one table. */
  lemma {:induction false} HtmlTableHolds(cnt: TokenCount, block: seq<string>, p: nat)
    requires p < |block| && HtmlTable(cnt, block, 0, |block| - 1)
    ensures p == 0 ==> TableStartsAt(cnt, block, 0)
    ensures p > 0 ==> TableContinues(cnt, block, p)
    ensures var t := ScanTo(cnt, block, p + 1).table;
            t == Table(!TableCloses(block[p]), QuoteDepth(block[0]), SumTokens(cnt, block[..p + 1]))
  {
    hide IsFence, QuoteDepth, TableOpens, TableCloses, IsPipeRow, PipeStep, SumTokens;
    ScanToNext(cnt, block, p);
    SumSnoc(cnt, block, 0, p);
    assert block[0..p] == block[..p] && block[0..p + 1] == block[..p + 1];
    if p == 0 {
      NoSum(cnt);
      assert block[..0] == [];
    } else {
      HtmlTableHolds(cnt, block, p - 1);
      assert GoesOn(cnt, block, 0, p);
      hide ScanTo;
    }
  }

  lemma NoSum(cnt: TokenCount)
    ensures SumTokens(cnt, []) == 0
  {
  }

  lemma ShiftedTable(cnt: TokenCount, doc: seq<string>, a: nat, b: nat)
    requires a <= b < |doc|
    ensures HtmlTable(cnt, doc, a, b) ==> HtmlTable(cnt, doc[a..b + 1], 0, b - a)
    ensures PipeTable(cnt, doc, a, b) ==> PipeTable(cnt, doc[a..b + 1], 0, b - a)
  {
    hide IsFence, QuoteDepth, TableOpens, TableCloses, IsPipeRow, SumTokens, GoesOn;
    var block := doc[a..b + 1];
    if HtmlTable(cnt, doc, a, b) {
      forall p | 0 < p <= b - a
        ensures GoesOn(cnt, block, 0, p)
      {
        assert GoesOn(cnt, doc, a, a + p);
        ShiftedLine(cnt, doc, a, b, p);
      }
    }
    if PipeTable(cnt, doc, a, b) {
      forall p | 0 < p <= b - a
        ensures SumTokens(cnt, block[0..p]) <= UNCLOSED_TABLE_TOKEN_BOUND
      {
        SliceOfSlice(doc, a, b + 1, 0, p);
        assert SumTokens(cnt, doc[a..a + p]) <= UNCLOSED_TABLE_TOKEN_BOUND;
      }
    }
  }

  lemma ShiftedLine(cnt: TokenCount, doc: seq<string>, a: nat, b: nat, p: nat)
    requires a <= b < |doc| && 0 < p <= b - a && GoesOn(cnt, doc, a, a + p)
    ensures GoesOn(cnt, doc[a..b + 1], 0, p)
  {
    hide QuoteDepth, TableCloses, SumTokens;
    SliceOfSlice(doc, a, b + 1, 0, p);
  }

  lemma TableBlockHeld(cnt: TokenCount, block: seq<string>, p: nat)
    requires 0 < p < |block|
    requires HtmlTable(cnt, block, 0, |block| - 1) || PipeTable(cnt, block, 0, |block| - 1)
    ensures Held(cnt, block, p)
  {
    if HtmlTable(cnt, block, 0, |block| - 1) {
      HtmlTableHolds(cnt, block, p);
    } else {
      FenceIsNeverPipeRow(block[0]);
      hide IsFence, QuoteDepth, TableOpens, TableCloses, IsPipeRow, SumTokens;
      assert PipeStartsAt(cnt, block, 0);
      PipeRunHolds(cnt, block, 0, |block| - 1);
    }
  }

  lemma TagNotBlank(line: string)
    requires TableOpens(line)
    ensures !Blank(line)
  {
    var i: nat :| i < |line| && MatchesAt(line, i, OPEN_TAG);
    assert LowerAscii(line[i + 0]) == OPEN_TAG[0];
  }

  lemma RowNotBlank(line: string)
    requires IsPipeRow(line)
    ensures !Blank(line)
  {
    var k := TrimStartShape(line);
  }

  lemma OpeningNotBlank(cnt: TokenCount, doc: seq<string>, a: nat, b: nat)
    requires HtmlTable(cnt, doc, a, b) || PipeTable(cnt, doc, a, b)
    ensures a <= b < |doc| && !Blank(doc[a])
  {
    hide TableOpens, IsPipeRow, Blank;
    if HtmlTable(cnt, doc, a, b) {
      TagNotBlank(doc[a]);
    } else {
      RowNotBlank(doc[a]);
    }
  }

  /** A table of the document comes out whole, in one chunk, whatever the limits: an HTML or a pipe table of which
      no line is a consumed heading, before which the trackers of its section are outside every region, in a
      document whose sections end outside every region. */
  lemma TablesStayWhole(cnt: TokenCount, lim: Limits, content: string, a: nat, b: nat)
    requires var doc := Split(content, '\n');
             && (HtmlTable(cnt, doc, a, b) || PipeTable(cnt, doc, a, b)) && NoneConsumed(doc, a, b)
             && OutsideBefore(cnt, doc, a) && AllEndOutside(cnt, Sections(doc))
    ensures WithinSomeChunk(Trim(Join(Split(content, '\n')[a..b + 1], "\n")), Chunks(cnt, lim, content))
  {
    hide HtmlTable, PipeTable, Blank, Held, WithinSomeChunk, Chunks, Split, Join, AllEndOutside, OutsideBefore;
    hide Sections, Merged, ConsumedAt, Spans, ScanTo, Outside, Trim;
    var doc := Split(content, '\n');
    OpeningNotBlank(cnt, doc, a, b);
    ShiftedTable(cnt, doc, a, b);
    var h, start := StretchInSection(doc, a, b);
    var m, o := MergedOutside(cnt, lim.min, Sections(doc), h);
    var own, lines := Sections(doc)[h].lines, MergedSections(cnt, lim, content)[m].lines;
    var x := o + (a - start);
    ReachesOutside(cnt, doc, Sections(doc)[h], start, a, b, lines, o);
    BlockHolds(cnt, lines, x, doc[a..b + 1]);
    assert lines[x] == lines[x..x + (b - a) + 1][0] == doc[a];
    HeldStretchInOneChunk(cnt, lim, content, m, x, x + (b - a));
  }

  lemma BlockHolds(cnt: TokenCount, lines: seq<string>, x: nat, block: seq<string>)
    requires x + |block| <= |lines| && lines[x..x + |block|] == block && Outside(ScanTo(cnt, lines, x))
    requires block != [] && (HtmlTable(cnt, block, 0, |block| - 1) || PipeTable(cnt, block, 0, |block| - 1))
    ensures forall p | x < p < x + |block| :: Held(cnt, lines, p)
  {
    hide HtmlTable, PipeTable, Held, ScanTo, Outside;
    forall p | x < p < x + |block|
      ensures Held(cnt, lines, p)
    {
      TableBlockHeld(cnt, block, p - x);
      HeldAgain(cnt, lines, x, block, p - x);
    }
  }

  /** The block's place in the merged section, and the trackers before it. */
  lemma ReachesOutside(cnt: TokenCount, doc: seq<string>, s: Section, start: nat, a: nat, b: nat, lines: seq<string>,
                       o: nat)
    requires Spans(doc, s, start) && start <= a <= b < start + |s.lines| && OutsideBefore(cnt, doc, a)
    requires o + |s.lines| <= |lines| && lines[o..o + |s.lines|] == s.lines && Outside(ScanTo(cnt, lines, o))
    ensures var x := o + (a - start);
            && x + (b - a) < |lines| && lines[x..x + (b - a) + 1] == doc[a..b + 1]
            && Outside(ScanTo(cnt, lines, x))
  {
    hide ScanTo, Outside, Spans, SectionStart;
    SpanFacts(doc, s, start, a);
    SameStretch(doc, start, start + |s.lines|, lines, o, a - start, b + 1 - start);
    SameStretch(doc, start, start + |s.lines|, lines, o, 0, a - start);
    var before := doc[start..a];
    assert before[..|before|] == before;
    ScanShift(cnt, lines, o, before, |before|);
    StillOutside(ScanTo(cnt, lines, o + |before|), ScanTo(cnt, before, |before|));
  }

  lemma StillOutside(s: Scan, t: Scan)
    requires SameScan(s, t) && Outside(t)
    ensures Outside(s)
  {
  }

  lemma SpanFacts(doc: seq<string>, s: Section, start: nat, a: nat)
    requires Spans(doc, s, start) && start <= a <= start + |s.lines|
    ensures start + |s.lines| <= |doc| && s.lines == doc[start..start + |s.lines|] && SectionStart(doc, a) == start
  {
    hide ConsumedAt, Before, HeadingAbove, SectionStart;
    SectionStartIs(doc, start, a);
  }

  /** The same stretch of two lists that share a longer one. */
  lemma SameStretch<T>(s: seq<T>, from: nat, to: nat, t: seq<T>, o: nat, i: nat, j: nat)
    requires from <= to <= |s| && o + (to - from) <= |t| && t[o..o + (to - from)] == s[from..to]
    requires i <= j <= to - from
    ensures t[o + i..o + j] == s[from + i..from + j]
  {
    SliceOfSlice(t, o, o + (to - from), i, j);
    SliceOfSlice(s, from, to, i, j);
  }

  // -------------------------------------------------------------- a witness

  /** A heading line inside a table cuts it: neither section holds both ends. */
  lemma HeadingCutsTable()
    ensures var doc := ["<table>", "### T", "</table>"];
            && ConsumedAt(doc, 1) && !InOneSection(doc, 0, 2)
            && |Sections(doc)| == 2 && Sections(doc)[0].lines == ["<table>"] && Sections(doc)[1].lines == ["</table>"]
  {
    hide IsFence, IsHeading, Before, FenceRun, Sections, ReadTo, HeadingAbove, TitleOf;
    var doc := ["<table>", "### T", "</table>"];
    PlainTags();
    TitleLine();
    NoFenceYet(doc);
    BeforeStep(doc, 0);
    BeforeStep(doc, 1);
    BeforeStep(doc, 2);
    SectionsOfThree(doc);
    OneSectionIff(doc, 0, 2);
  }

  lemma NoFenceYet(doc: seq<string>)
    ensures Before(doc, 0) == NO_FENCE
  {
    assert doc[..0] == [];
  }

  lemma PlainTags()
    ensures !IsFence("<table>") && !IsFence("</table>") && !IsHeading("<table>") && !IsHeading("</table>")
    ensures !Blank("<table>") && !Blank("</table>")
  {
    assert "<table>"[0] == "</table>"[0] == '<' && !IsWhite('<');
  }
}
